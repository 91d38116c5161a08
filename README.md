# Timer state engine

A Dafny model of the timer engine of a React Native countdown-timer app.
The model covers four parts:

- **The Redux timer slice** (`src/module/Home/store/homeReducer.tsx`). It keeps three things:
  - the timer list;
  - a map from timer id to runtime state (running flag, seconds left, status);
  - the completion history.
- **Its reducers**: add, start, pause, reset, tick, complete, clear, and the four category-wide reducers (start, pause, resume and reset all timers of one category).
- **The pure helpers of the timer card** (`src/components/TimerCard.tsx`):
  - the `HH:MM:SS` rendering;
  - the half-way alert condition;
  - the completion trigger.
- **The category grouping of the home screen** (`src/module/Home/Home.tsx`).

The model is in two layers:

- `timer_spec.dfy` (module `TimerSpec`) describes each reducer as a function from the old slice to the new one. It also defines the slice invariant `Inv`, which every reducer keeps:
  - timer `i` has id `i + 1`;
  - the state map has exactly the ids `1..n`;
  - every state has `0 <= timeLeft <= duration`;
  - `isRunning` holds exactly when the status is Running;
  - no timer is marked completed (`addTimer` sets `isCompleted` to false and no reducer changes it).
- `home_reducer.dfy` (module `HomeReducer`) is the slice as the reducers run it. Class `TimerStore` holds the fields the reducers update in place, and each reducer is a method. The two loops (the `Object.entries(...).forEach` of the tick and the `timers.forEach` of the category reducers) are `while` loops that call a method for one entry. Each method is proved to leave exactly the slice its TimerSpec function describes. The `storage` field records the payload last handed to durable storage.

The other files:

- `timer_types.dfy`: the entities, `formatCompletedData` and the `find`/`findIndex` lookup by id.
- `persistence.dfy`: what is saved and what a load returns.
- `timer_card.dfy`: the card's formatting and trigger conditions.
- `home.dfy`: the category grouping, the category list and the per-category count.
- `timer_properties.dfy`: properties that span several reducer calls:
  - repeated ticks count a timer down and complete it;
  - a tick logs one record per completing entry;
  - the worked example of a 5-second "Focus" timer;
  - how the card's triggers meet the engine's states.

Modelling choices:

- **Ids.** The source builds an id as `(timers.length + 1).toString()`. The model keeps its numeric value as a `nat`.
- **Tick order.** Under the invariant the state keys are exactly `1..n`, and `Object.entries` lists integer-like keys in ascending order. So the tick visits ids `1..n` in turn, and the history records of one tick are appended in id order.
- **Timestamps.** A completion timestamp is the parameter `now`.

Behaviour a reader might not expect, which the model follows as the code has it:

- A new timer starts `Paused`. There is no Pending status.
- `start`/`pause` on an unknown id is a silent no-op, not an error.
- Ids restart from 1 after a clear (`IdsRestartAfterClear`); they are not a never-reused counter.
- `addTimer` does no input validation.
- `completeTimer` appends a record on every call, even for a timer that is already completed.
- The payload `persistTimers` writes holds no history, so reading it back with `loadTimers` does not restore the history (`SaveThenLoad`). This concerns that pair of helpers only; the app's redux-persist configuration, which is not modelled, stores the whole slice.

## Model

| member | source | states |
|---|---|---|
| TimerTypes.FormatCompletedData | src/module/Home/store/homeReducer.tsx:63-75 | the record copies its arguments: the duration passed in as `timetaken`, the name, the category and the completion timestamp. That the duration passed in is the timer's configured duration, not the time left, is stated by `TimerSpec.CompletionRecordFor` and `TimerSpec.Complete` |
| TimerTypes.Find | src/module/Home/store/homeReducer.tsx:149-150 | the result is the first index whose timer has the id, and None exactly when no timer has it |
| TimerSpec.FindUnderInv | src/module/Home/store/homeReducer.tsx:82-88 | since ids are assigned as list length + 1, the timer with id `id` is found at index `id - 1`, and ids outside `1..n` are not found |
| TimerSpec.Add | src/module/Home/store/homeReducer.tsx:81-95 | exactly one timer is appended, with id = old length + 1, the new id unused before and `isCompleted` false; its state is not running, full duration, Paused; no other entry changes; the history is kept; the invariant is preserved |
| TimerSpec.Start | src/module/Home/store/homeReducer.tsx:97-103 | an unknown id leaves the slice unchanged; a known entry becomes running with status Running and the same time left, also when it was completed; other entries, timers and history are unchanged; the invariant is preserved |
| TimerSpec.Pause | src/module/Home/store/homeReducer.tsx:105-111 | an unknown id leaves the slice unchanged; a known entry becomes not running with status Paused and the same time left; nothing else changes; the invariant is preserved |
| TimerSpec.Reset | src/module/Home/store/homeReducer.tsx:113-123 | an id with no timer leaves the slice unchanged; otherwise its entry becomes not running, Paused, with the timer's full duration left; nothing else changes; the invariant is preserved |
| TimerSpec.Complete | src/module/Home/store/homeReducer.tsx:148-168 | an id with no timer leaves the slice unchanged; otherwise the entry becomes Completed and not running with its time left kept, and exactly one record with the configured duration is appended, on every call; the invariant is preserved |
| TimerSpec.Clear | src/module/Home/store/homeReducer.tsx:170-174 | timers and states become empty while the history is kept |
| TimerSpec.Decrement | src/module/Home/store/homeReducer.tsx:127-129 | the decrement step takes exactly one second off a running entry with time left and leaves every other entry as it was; the running flag and status are untouched |
| TimerSpec.CompletesOnTick | src/module/Home/store/homeReducer.tsx:130 | because the completion test reads the decremented value, a running entry completes on a tick exactly when it has one second or none left |
| TimerSpec.CompletionRecordFor | src/module/Home/store/homeReducer.tsx:133-142 | a completing entry adds at most one record: none when no timer has its id, otherwise the record of a timer with that id, carrying its configured duration and the tick's time |
| TimerSpec.TickEntry | src/module/Home/store/homeReducer.tsx:126-132 | a tick leaves a non-running entry unchanged, takes exactly one second off a running entry with more than one second left, and turns a completing entry into not running, 0 left, Completed; consistency and `0 <= timeLeft` are kept and time left never grows |
| TimerSpec.TickStates | src/module/Home/store/homeReducer.tsx:126-132 | every entry is advanced on its own and the set of ids is unchanged |
| TimerSpec.TickRecords | src/module/Home/store/homeReducer.tsx:130-143 | a tick logs at most one record per visited id, each stamped with the tick's time and equal to the record of some timer |
| TimerSpec.Tick | src/module/Home/store/homeReducer.tsx:125-146 | the timers and the set of ids are kept, each entry changes as TickEntry says, the old history is a prefix of the new one, the history grows by at most one record per timer, and the invariant is preserved |
| TimerSpec.BulkEntry | src/module/Home/store/homeReducer.tsx:176-220 | startAll makes an entry running, pauseAll paused, resumeAll makes it running only when time is left, resetAll restores not running, full duration, Paused; the time-left bounds and consistency are kept |
| TimerSpec.CategoryEntriesFit | src/module/Home/store/homeReducer.tsx:176-220 | the entries a category-wide reducer produces still fit their timers, so the invariant is kept |
| TimerSpec.Bulk | src/module/Home/store/homeReducer.tsx:176-220 | exactly the entries whose timer's category equals `c` change, as BulkEntry says; all other entries, the timers and the history are unchanged; the invariant is preserved |
| Persistence.Save | src/module/Home/store/homeReducer.tsx:42-47 | the payload is the slice's timers and states and nothing else, and for a slice satisfying the invariant it satisfies the invariant on its own |
| Persistence.Load | src/module/Home/store/homeReducer.tsx:53-61 | a stored payload is returned with its timers and states and without a history field; no payload gives the initial, empty state |
| Persistence.SaveThenLoad | src/module/Home/store/homeReducer.tsx:42-61 | loading what was saved gives back the timers and states, which still satisfy the invariant, but no history |
| HomeReducer.TickPassComplete | src/module/Home/store/homeReducer.tsx:125-146 | a completed pass over the ids `1..n` leaves exactly the slice Tick describes |
| HomeReducer.TickStepAdvanced | src/module/Home/store/homeReducer.tsx:126-132 | visiting one more id of the tick advances that entry and leaves the entries not yet visited as they were |
| HomeReducer.TickStepLogged | src/module/Home/store/homeReducer.tsx:130-143 | visiting one more id appends that entry's completion record, if any, after those of the ids already visited |
| HomeReducer.CompletePassComplete | src/module/Home/store/homeReducer.tsx:148-168 | the two field writes and the history push of completeTimer leave exactly the slice Complete describes |
| HomeReducer.BulkPassComplete | src/module/Home/store/homeReducer.tsx:176-220 | a completed pass over the timer list leaves exactly the slice Bulk describes |
| HomeReducer.BulkStepDone | src/module/Home/store/homeReducer.tsx:177-182 | visiting one more timer of the list applies the category reducer's change to its entry exactly when its category matches |
| HomeReducer.TimerStore.constructor | src/module/Home/store/homeReducer.tsx:36-40 | the store starts from the empty initial state, which satisfies the invariant |
| HomeReducer.TimerStore.Persist | src/module/Home/store/homeReducer.tsx:42-51 | the payload written is the timers and states, not the history |
| HomeReducer.TimerStore.AddTimer | src/module/Home/store/homeReducer.tsx:81-95 | the new state is Add of the old, the invariant is kept, and the new payload is saved |
| HomeReducer.TimerStore.StartTimer | src/module/Home/store/homeReducer.tsx:97-103 | the new state is Start of the old; the payload is saved only for a known id |
| HomeReducer.TimerStore.PauseTimer | src/module/Home/store/homeReducer.tsx:105-111 | the new state is Pause of the old; the payload is saved only for a known id |
| HomeReducer.TimerStore.ResetTimer | src/module/Home/store/homeReducer.tsx:113-123 | the new state is Reset of the old; the payload is saved only when the timer exists |
| HomeReducer.TimerStore.VisitEntry | src/module/Home/store/homeReducer.tsx:126-143 | one callback of the tick replaces the entry by TickEntry of it and appends the timer's record exactly when the entry completes |
| HomeReducer.TimerStore.VisitAllEntries | src/module/Home/store/homeReducer.tsx:126-144 | the pass over ids `1..n` advances every entry by TickEntry and appends TickRecords |
| HomeReducer.TimerStore.TickTimers | src/module/Home/store/homeReducer.tsx:125-146 | the new state is Tick of the old, the invariant is kept, and one save follows the whole pass |
| HomeReducer.TimerStore.CompleteTimer | src/module/Home/store/homeReducer.tsx:148-168 | the new state is Complete of the old; the payload is saved only when the timer exists |
| HomeReducer.TimerStore.ClearTimers | src/module/Home/store/homeReducer.tsx:170-174 | the new state is Clear of the old and the stored payload is removed |
| HomeReducer.TimerStore.VisitTimer | src/module/Home/store/homeReducer.tsx:177-182 | one callback of a category reducer updates the timer's entry by BulkEntry when its category matches, and otherwise changes nothing |
| HomeReducer.TimerStore.ApplyToCategory | src/module/Home/store/homeReducer.tsx:176-220 | the pass over the timer list leaves Bulk of the old state, keeps the invariant and saves once |
| HomeReducer.TimerStore.StartAllCategoryTimers | src/module/Home/store/homeReducer.tsx:176-184 | the new state is Bulk with StartAll of the old, and it is saved |
| HomeReducer.TimerStore.PauseAllCategoryTimers | src/module/Home/store/homeReducer.tsx:186-194 | the new state is Bulk with PauseAll of the old, and it is saved |
| HomeReducer.TimerStore.ResumeAllCategoryTimers | src/module/Home/store/homeReducer.tsx:196-207 | the new state is Bulk with ResumeAll of the old, and it is saved |
| HomeReducer.TimerStore.ResetAllCategoryTimers | src/module/Home/store/homeReducer.tsx:209-220 | the new state is Bulk with ResetAll of the old, and it is saved |
| TimerCard.Hours | src/components/TimerCard.tsx:32 | the hours field is the number of whole hours: hours * 3600 <= seconds < (hours + 1) * 3600 |
| TimerCard.Minutes | src/components/TimerCard.tsx:33 | the minutes field is at most 59 |
| TimerCard.Secs | src/components/TimerCard.tsx:34 | the seconds field is at most 59 |
| TimerCard.FieldsRecombine | src/components/TimerCard.tsx:32-34 | hours * 3600 + minutes * 60 + seconds gives back the input |
| TimerCard.DigitChar | src/components/TimerCard.tsx:35-37 | a digit below 10 is rendered as the character with that digit value |
| TimerCard.NatToString | src/components/TimerCard.tsx:35-37 | `toString` of a whole number is a non-empty digit string with no leading zero; it is one digit exactly below 10 and at most two exactly below 100 |
| TimerCard.NatToStringValue | src/components/TimerCard.tsx:35-37 | reading the decimal digits back gives the number |
| TimerCard.Repeat | src/components/TimerCard.tsx:35-37 | the fill is `k` copies of the fill character |
| TimerCard.PadStart | src/components/TimerCard.tsx:35-37 | `padStart` reaches the width (or keeps a longer string), ends with the original string, and is filled before it with the fill character |
| TimerCard.LeadingZeros | src/components/TimerCard.tsx:35-37 | zeros put in front of a digit string do not change its value |
| TimerCard.Pad2 | src/components/TimerCard.tsx:35-37 | each field is at least two digits, has the field's value, and is exactly two digits below 100 |
| TimerCard.JoinFields | src/components/TimerCard.tsx:35-37 | joining by ':' puts the colons 3 and 6 characters from the end, with each field recoverable by position |
| TimerCard.HoursBelow100 | src/components/TimerCard.tsx:32 | the hours field is below 100 exactly below 360000 seconds |
| TimerCard.FormatTime | src/components/TimerCard.tsx:31-38 | the rendering has at least 8 characters with colons at the field boundaries, and exactly 8 exactly when the input is below 360000 seconds |
| TimerCard.SplitFields | src/components/TimerCard.tsx:35-37 | a successful split yields three digit strings |
| TimerCard.SplitJoined | src/components/TimerCard.tsx:35-37 | splitting three joined digit fields gives the same fields back |
| TimerCard.FormatThenParse | src/components/TimerCard.tsx:31-38 | the rendering loses nothing: parsing it gives back the number of seconds |
| TimerCard.ParseJoined | src/components/TimerCard.tsx:35-37 | parsing three joined digit fields gives the number of seconds they denote |
| TimerCard.PaddedFieldsValue | src/components/TimerCard.tsx:35-37 | padding with zeros does not change the number of seconds the three fields denote |
| TimerCard.HalfwayAlert | src/components/TimerCard.tsx:51 | the alert fires exactly when not yet notified and twice the time left is the duration or one less, i.e. time left is the duration halved and rounded down |
| TimerCard.CompletionTrigger | src/components/TimerCard.tsx:60 | fires exactly on the running entries the engine's tick would complete without taking a second off, that is, those already at 0 |
| TimerProperties.Ticks | src/module/Home/store/homeReducer.tsx:125-146 | any number of ticks keeps the invariant, the timers and the ids, and only appends to the history |
| TimerProperties.TicksAppend | src/module/Home/store/homeReducer.tsx:125-146 | ticking through `a` and then `b` is ticking through `a + b` |
| TimerProperties.TickRecordsNone | src/module/Home/store/homeReducer.tsx:130-143 | a tick in which no entry completes logs nothing |
| TimerProperties.TickRecordsCount | src/module/Home/store/homeReducer.tsx:130-143 | when every visited id has a timer, a tick logs exactly as many records as there are completing entries |
| TimerProperties.TickRecordsPrefix | src/module/Home/store/homeReducer.tsx:126-141 | the records logged for ids `1..j` come first, in order, among those logged for ids `1..k` when `j <= k`: records are only pushed |
| TimerProperties.TickRecordsHas | src/module/Home/store/homeReducer.tsx:130-143 | every completing entry with a timer has that timer's record among those logged |
| TimerProperties.QuietTicks | src/module/Home/store/homeReducer.tsx:125-146 | while no running entry reaches zero, ticks log nothing, take one second per tick off each running entry and leave the others unchanged |
| TimerProperties.Countdown | src/module/Home/store/homeReducer.tsx:127-129 | a running entry with more time left than the ticks to come loses exactly one second per tick and stays running |
| TimerProperties.CountdownCompletes | src/module/Home/store/homeReducer.tsx:125-146 | a running entry with `t > 0` seconds left is completed by the `t`-th tick, which logs its record with the configured duration |
| TimerProperties.CountdownThenLast | src/module/Home/store/homeReducer.tsx:125-146 | after one tick fewer than its seconds left, the last tick completes the entry and logs its record |
| TimerProperties.LastTickCompletes | src/module/Home/store/homeReducer.tsx:130-143 | a tick that completes an entry logs that entry's record |
| TimerProperties.FocusScenario | src/module/Home/store/homeReducer.tsx:81-146 | a 5-second timer, added and started, has 1 second left and is running after four ticks; the fifth tick completes it and the history is exactly one record with duration 5 |
| TimerProperties.FocusStarted | src/module/Home/store/homeReducer.tsx:81-103 | adding then starting the timer from the empty state gives exactly one timer with id 1, one running entry with its full 5 seconds left, and an empty history |
| TimerProperties.FocusFourTicks | src/module/Home/store/homeReducer.tsx:125-146 | four ticks over that slice leave the entry running with 1 second left and log nothing |
| TimerProperties.LastTickLogsOne | src/module/Home/store/homeReducer.tsx:125-146 | a tick over a single running timer with 1 second left completes it and logs exactly its record |
| TimerProperties.IdsRestartAfterClear | src/module/Home/store/homeReducer.tsx:82 | after a clear the next timer gets id 1 again |
| TimerProperties.PauseTwice | src/module/Home/store/homeReducer.tsx:105-111 | pausing twice is the same as pausing once |
| TimerProperties.HalfwayReached | src/components/TimerCard.tsx:51 | a running timer started with its full duration (at least 2 seconds) meets the half-way alert after `duration - duration / 2` ticks |
| TimerProperties.NoTriggerAfterTick | src/components/TimerCard.tsx:60 | right after a tick no entry meets the completion trigger, since the tick itself completes every running entry that reaches zero |
| TimerProperties.StartExhaustedTriggers | src/components/TimerCard.tsx:60-63 | starting an entry with no time left meets the completion trigger, and the completeTimer call it causes appends one more record |
| Home.Group | src/module/Home/Home.tsx:35-39 | a group holds exactly the timers of its category and is no longer than the list |
| Home.CategoryIndices | src/module/Home/Home.tsx:35-39 | the positions of a category's timers, strictly ascending, holding every such position and no other |
| Home.GroupFollowsIndices | src/module/Home/Home.tsx:36-37 | the k-th timer of a group is the timer at the k-th position of that category, so groups keep list order and have one element per matching timer |
| Home.GroupOfAbsent | src/module/Home/Home.tsx:36 | a category no timer holds has an empty group |
| Home.CategorySetAppend | src/module/Home/Home.tsx:36 | one more timer adds exactly its category to the set of categories |
| Home.ExactlyOneGroup | src/module/Home/Home.tsx:35-39 | every timer is in the group of its own category and in no other |
| Home.SumSizesAppend | src/module/Home/Home.tsx:51 | one more timer adds one to the sum of group sizes over a duplicate-free category list that holds its category, and nothing otherwise |
| Home.SumSizesCovers | src/module/Home/Home.tsx:51 | over a duplicate-free list covering every category, the group sizes add up to the number of timers |
| Home.CategorizeStep | src/module/Home/Home.tsx:35-39 | one step of the reduce (create the key if missing, then push) keeps every key equal to its category's group over the timers seen so far |
| Home.Categorize | src/module/Home/Home.tsx:35-39 | the reduce creates one key per category present, and each key's list is that category's group in list order |
| Home.CategorizeAsWritten | src/module/Home/Home.tsx:35-39 | the reduce as written throws exactly when some timer's category is a name a `{}` literal inherits from Object.prototype, and otherwise builds the groups Categorize builds |
| Home.ConstructorCategoryThrows | src/module/Home/Home.tsx:35-39 | a single timer in category "constructor" makes the reduce as written throw, while the intended grouping lists that category with the timer in it |
| Home.Categories | src/module/Home/Home.tsx:41 | the key list holds every category once and nothing else |
| Home.CategoryCount | src/module/Home/Home.tsx:51 | the count beside a category is the length of its list, which for the list the reduce built is the number of timers with that category |
| Home.CountsOf | src/module/Home/Home.tsx:51 | the count beside each listed category is the number of timers with that category |
| Home.CategoryCounts | src/module/Home/Home.tsx:35-51 | the categories are listed once each; each count is the number of timers with that category; the group sizes, and so the counts, add up to the number of timers |

## Left out

- AsyncStorage I/O (`persistTimers`, `loadTimers`, `removeItem`). It is asynchronous and library-backed, so a save is modelled as the payload it writes (`storage`), and a load as a function of what the store holds. A failing read gives the initial state, the same as a missing key. JSON encoding and decoding are not modelled.
- Restoring the store from a loaded payload is not modelled: that is store wiring. A payload decoded from storage is not checked against the invariant.
- Wall-clock time: the timestamp of `new Date()` is the parameter `now`. The source reads the clock once per completing timer (`formatCompletedData` at src/module/Home/store/homeReducer.tsx:71, called from :135-140), so two timers completing in one tick may get different timestamps; the model gives every record of one tick the same `now`. The unused `completionTime` parameter of `formatCompletedData` is dropped.
- The `setInterval` driver of the tick and its cleanup (timing and concurrency). A tick is a call made by the caller.
- Redux and redux-persist configuration, action creators, selectors and the Immer draft mechanics. Each reducer is a method that updates the fields in place.
- Form validation and the type of `duration`: the add form passes the duration as a string. The model assumes a whole, non-negative number of seconds.
- Fractional and very large durations: the add form (src/components/AddTimerModel.tsx:26-28) requires only a positive number, so it also accepts durations such as 2.5 or 1e20. For these, the model's integer results do not hold of the source. A fractional timer ticks from 2.5 to 0.5 and then to -0.5, so `timeLeft === 0` never holds: it never completes and never logs a record, and its time left drops below 0.
- Ids as strings: an id such as `"01"` that would not match `"1"` in the source is the same number in the model.
- The `status` field of the `Timer` type. No reducer sets or reads it.
- The `state.history` undefined branch of `completeTimer`, which only logs: the history always exists in the model.
- TimerSpec.Tick: requires the slice invariant because it visits the ids `1..n` of the timer list rather than the keys of the state map, which is the same thing only when the keys are exactly those ids. Every reducer keeps the invariant, so the call always meets it.
- TimerSpec.Complete and TimerSpec.Bulk: require the slice invariant. Outside it, the source could write through a missing state entry, which is a JavaScript exception, and that is not modelled. Every reducer keeps the invariant, so these calls always meet it.
- Home.Categorize: models the intended grouping. On a category named after an Object.prototype member (`constructor`, `toString`, `__proto__`, ...) the source's reduce throws a TypeError instead; that behaviour is `Home.CategorizeAsWritten`, under Findings.
- Home.CategoryCounts: is built on `Home.Categorize`, so it lists and counts every category; with a category named after an Object.prototype member the screen as written throws before any count is shown (see Findings).
- Numbers: the source's numbers are IEEE doubles and the model's are unbounded integers. The results below hold of the source only for exact integers below 2^53.
- TimerCard.FormatThenParse: holds of the source only below 2^53 seconds: above that `Math.floor(seconds / 3600)` can round, and from 1e21 `toString` switches to exponent notation.
- TimerCard.NatToString: holds of `toString` only below 2^53; from 1e21 the source writes exponent notation.
- TimerProperties.Countdown: holds of the source only for time left below 2^53; above that `timeLeft -= 1` may not change the stored value.
- TimerProperties.CountdownCompletes: holds of the source only for time left below 2^53, for the same reason; a larger timer may never reach 0.
- Home.Categories: the model does not fix the order of `Object.keys`, only that each category appears once. Object keys are listed in insertion order, or numerically for integer-like category names.
- The card's rendering: JSX, toasts, the congratulations modal, the `notified` React state and its resetting effect, and the progress ratio, which is a float.
- The rendering of each timer row on the home screen, the theme, navigation and the history screen's locale-dependent dates.

## Findings

| source | as written | input that shows it | evidently intended | confidence | as-written member | corrected member |
|---|---|---|---|---|---|---|
| src/module/Home/Home.tsx:35-39 | the accumulator is a `{}` literal, so the fallback to a fresh `[]` is skipped for a name inherited from Object.prototype, the inherited member is kept, and `.push` on it throws a TypeError | one timer with category `"constructor"` (likewise `"toString"`, `"valueOf"`, `"__proto__"`, ...) | every category name, whatever it is, gets its own list of timers | not executed; high, by JavaScript's property lookup | Home.CategorizeAsWritten, Home.ConstructorCategoryThrows | Home.Categorize |
