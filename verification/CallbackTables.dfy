/**
 The global tables of callbacks: the reducer `_azleDispatch` with its log of actions, inter-canister
 calls and timers on top of it, and the runtime that settles calls and fires timers.
 */
module CallbackTables {
  import opened Wrappers

  /** A stored closure: the one of a promise, or the one of a timer. */
  datatype Callback = ResolveOf(promise: nat) | RejectOf(promise: nat) | TimerOf(timer: nat)

  datatype Action =
    | SetResolve(id: string, callback: Callback)
    | SetReject(id: string, callback: Callback)
    | SetTimer(timerId: nat, callback: Callback)
    | DeleteResolve(id: string)
    | DeleteReject(id: string)
    | DeleteTimer(timerId: nat)
    | OtherAction

  /** The three tables, each undefined until its first entry, and the recorded actions. */
  datatype Tables = Tables(
    resolves: Option<map<string, Callback>>, rejects: Option<map<string, Callback>>,
    timers: Option<map<nat, Callback>>, actions: Option<seq<Action>>)

  const EMPTY := Tables(None, None, None, None)

  function Entries<K, V>(table: Option<map<K, V>>): map<K, V> {
    if table.Some? then table.value else map[]
  }

  function Put<K, V>(table: Option<map<K, V>>, key: K, value: V): Option<map<K, V>> {
    Some(Entries(table)[key := value])
  }

  function Delete<K, V>(table: Option<map<K, V>>, key: K): Option<map<K, V>> {
    if table.Some? then Some(table.value - {key}) else None
  }

  /** The reducer, without the log. */
  function Reduced(t: Tables, a: Action): Tables {
    match a
    case SetResolve(id, callback) => t.(resolves := Put(t.resolves, id, callback))
    case SetReject(id, callback) => t.(rejects := Put(t.rejects, id, callback))
    case SetTimer(timerId, callback) => t.(timers := Put(t.timers, timerId, callback))
    case DeleteResolve(id) => t.(resolves := Delete(t.resolves, id))
    case DeleteReject(id) => t.(rejects := Delete(t.rejects, id))
    case DeleteTimer(timerId) => t.(timers := Delete(t.timers, timerId))
    case OtherAction => t
  }

  function Dispatched(t: Tables, recording: bool, a: Action): Tables {
    var r := Reduced(t, a);
    if recording then r.(actions := Some((if t.actions.Some? then t.actions.value else []) + [a])) else r
  }

  const MAX_U128 := 0xFFFF_FFFF_FFFF_FFFF_FFFF_FFFF_FFFF_FFFF

  /** Whether `callRaw` accepts a call: its arguments are an array that is not detached, and its cycles
      parse as an unsigned number of 128 bits. */
  predicate Accepted(cycles: int, attached: bool) {
    attached && 0 <= cycles <= MAX_U128
  }

  /** The start of a key: of the resolve table, or of the reject table. */
  function Prefix(resolve: bool): string {
    if resolve then "_resolve_" else "_reject_"
  }

  function SettleId(resolve: bool, uuid: string): string {
    Prefix(resolve) + uuid
  }

  function SettlerOf(resolve: bool, promise: nat): Callback {
    if resolve then ResolveOf(promise) else RejectOf(promise)
  }

  function SettleTable(t: Tables, resolve: bool): map<string, Callback> {
    Entries(if resolve then t.resolves else t.rejects)
  }

  // ---------- The tables as global variables ----------

  class Globals {
    var resolveCallbacks: Option<map<string, Callback>>
    var rejectCallbacks: Option<map<string, Callback>>
    var timerCallbacks: Option<map<nat, Callback>>
    var actions: Option<seq<Action>>
    var recordActions: bool

    function View(): Tables
      reads this
    {
      Tables(resolveCallbacks, rejectCallbacks, timerCallbacks, actions)
    }

    constructor (recordActions: bool)
      ensures View() == EMPTY && this.recordActions == recordActions
    {
      resolveCallbacks, rejectCallbacks, timerCallbacks, actions := None, None, None, None;
      this.recordActions := recordActions;
    }

    // `_azleDispatch`
    method Dispatch(a: Action)
      modifies this`resolveCallbacks, this`rejectCallbacks, this`timerCallbacks, this`actions
      ensures View() == Dispatched(old(View()), recordActions, a)
    {
      if recordActions {
        if actions.None? {
          actions := Some([]);
        }
        actions := Some(actions.value + [a]);
      }
      match a {
        case SetResolve(id, callback) =>
          if resolveCallbacks.None? {
            resolveCallbacks := Some(map[]);
          }
          resolveCallbacks := Some(resolveCallbacks.value[id := callback]);
        case SetReject(id, callback) =>
          if rejectCallbacks.None? {
            rejectCallbacks := Some(map[]);
          }
          rejectCallbacks := Some(rejectCallbacks.value[id := callback]);
        case SetTimer(timerId, callback) =>
          if timerCallbacks.None? {
            timerCallbacks := Some(map[]);
          }
          timerCallbacks := Some(timerCallbacks.value[timerId := callback]);
        case DeleteResolve(id) =>
          if resolveCallbacks.Some? {
            resolveCallbacks := Some(resolveCallbacks.value - {id});
          }
        case DeleteReject(id) =>
          if rejectCallbacks.Some? {
            rejectCallbacks := Some(rejectCallbacks.value - {id});
          }
        case DeleteTimer(timerId) =>
          if timerCallbacks.Some? {
            timerCallbacks := Some(timerCallbacks.value - {timerId});
          }
        case OtherAction =>
      }
    }

    // `handleTwoWay`: both callbacks are put before `callRaw`, which may throw into the promise.
    method HandleTwoWay(uuid: string, promise: nat, cycles: int, attached: bool) returns (called: bool)
      modifies this`resolveCallbacks, this`rejectCallbacks, this`timerCallbacks, this`actions
      ensures View() == DispatchedAll(old(View()), recordActions, ActionsOf(Call(uuid, promise, cycles, attached)))
      ensures called <==> attached && 0 <= cycles < 0x1_0000_0000_0000_0000_0000_0000_0000_0000
    {
      Dispatch(SetResolve(SettleId(true, uuid), ResolveOf(promise)));
      Dispatch(SetReject(SettleId(false, uuid), RejectOf(promise)));
      TwoDispatched(old(View()), recordActions, ActionsOf(Call(uuid, promise, cycles, attached)));
      called := CallRaw(cycles, attached);
    }

    // `call_raw`, up to the future it queues: the future's scope guard is what deletes the callbacks.
    method CallRaw(cycles: int, attached: bool) returns (called: bool)
      ensures called <==> attached && 0 <= cycles < 0x1_0000_0000_0000_0000_0000_0000_0000_0000
    {
      if !attached {
        return false;
      }
      if cycles < 0 || cycles > MAX_U128 {
        return false;
      }
      return true;
    }

    // The end of a call: the callback that the runtime invokes, and the clean-up that deletes both.
    method Settle(uuid: string, resolved: bool) returns (invoked: Option<Callback>)
      modifies this`resolveCallbacks, this`rejectCallbacks, this`timerCallbacks, this`actions
      ensures invoked == Invoked(old(View()), Settled(uuid, resolved))
      ensures View() == DispatchedAll(old(View()), recordActions, ActionsOf(Settled(uuid, resolved)))
    {
      var table := if resolved then resolveCallbacks else rejectCallbacks;
      var id := SettleId(resolved, uuid);
      invoked := if table.Some? && id in table.value then Some(table.value[id]) else None;
      Dispatch(DeleteResolve(SettleId(true, uuid)));
      Dispatch(DeleteReject(SettleId(false, uuid)));
      TwoDispatched(old(View()), recordActions, ActionsOf(Settled(uuid, resolved)));
    }

    // `setTimer` and `setTimerInterval`, once the runtime has given the id
    method TimerIsSet(id: nat, timer: nat, interval: bool)
      modifies this`resolveCallbacks, this`rejectCallbacks, this`timerCallbacks, this`actions
      ensures View() == DispatchedAll(old(View()), recordActions, ActionsOf(TimerSet(id, timer, interval)))
    {
      Dispatch(SetTimer(id, TimerOf(timer)));
      OneDispatched(old(View()), recordActions, ActionsOf(TimerSet(id, timer, interval)));
    }

    // `deleteGlobalTimerCallback`, after `clearTimer` or when a one-shot timer is done
    method ClearTimer(id: nat)
      modifies this`resolveCallbacks, this`rejectCallbacks, this`timerCallbacks, this`actions
      ensures View() == DispatchedAll(old(View()), recordActions, ActionsOf(TimerCleared(id)))
    {
      Dispatch(DeleteTimer(id));
      OneDispatched(old(View()), recordActions, ActionsOf(TimerCleared(id)));
    }
  }

  // ---------- The world around the tables ----------

  /** What can happen. `Settled` with `resolved` false is also the clean-up after a trap. Between the
      firing of a timer and its end its own callback runs, and anything may happen. */
  datatype Event =
    | Call(uuid: string, promise: nat, cycles: int, attached: bool)
    | Settled(uuid: string, resolved: bool)
    | TimerSet(id: nat, timer: nat, interval: bool)
    | TimerFires(id: nat)
    | TimerDone(id: nat)
    | TimerCleared(id: nat)

  datatype Timer = Timer(timer: nat, interval: bool)

  /** The promise of a call that is not settled by the runtime: the call is pending, or it was never
      made because `callRaw` threw. */
  datatype Owner = Owner(promise: nat, pending: bool)

  /** The tables, and what they stand for: the calls that are not settled, the timers that are neither
      done nor cleared, and the timer ids given out so far. */
  datatype World = World(tables: Tables, calls: map<string, Owner>, live: map<nat, Timer>, given: set<nat>)

  const START := World(EMPTY, map[], map[], {})

  predicate IsPending(w: World, uuid: string) {
    uuid in w.calls && w.calls[uuid].pending
  }

  /** A uuid is new, a timer id is never given twice, the runtime settles pending calls and fires live
      timers, and an interval timer is never done. `clearTimer` is free. */
  predicate Enabled(w: World, e: Event) {
    match e
    case Call(uuid, _, _, _) => uuid !in w.calls
    case Settled(uuid, _) => IsPending(w, uuid)
    case TimerSet(id, _, _) => id !in w.given
    case TimerFires(id) => id in w.live
    case TimerDone(id) => id in w.given && !(id in w.live && w.live[id].interval)
    case TimerCleared(_) => true
  }

  /** The actions an event dispatches. */
  function ActionsOf(e: Event): seq<Action> {
    match e
    case Call(uuid, promise, _, _) =>
      [SetResolve(SettleId(true, uuid), ResolveOf(promise)), SetReject(SettleId(false, uuid), RejectOf(promise))]
    case Settled(uuid, _) => [DeleteResolve(SettleId(true, uuid)), DeleteReject(SettleId(false, uuid))]
    case TimerSet(id, timer, _) => [SetTimer(id, TimerOf(timer))]
    case TimerFires(_) => []
    case TimerDone(id) => [DeleteTimer(id)]
    case TimerCleared(id) => [DeleteTimer(id)]
  }

  /** The callback an event invokes, if it invokes one and finds it. */
  function Invoked(t: Tables, e: Event): Option<Callback> {
    match e
    case Settled(uuid, resolved) =>
      if SettleId(resolved, uuid) in SettleTable(t, resolved)
      then Some(SettleTable(t, resolved)[SettleId(resolved, uuid)])
      else None
    case TimerFires(id) => if id in Entries(t.timers) then Some(Entries(t.timers)[id]) else None
    case _ => None
  }

  function DispatchedAll(t: Tables, recording: bool, actions: seq<Action>): Tables
    decreases |actions|
  {
    if actions == [] then t
    else DispatchedAll(Dispatched(t, recording, actions[0]), recording, actions[1..])
  }

  lemma OneDispatched(t: Tables, recording: bool, actions: seq<Action>)
    requires |actions| == 1
    ensures DispatchedAll(t, recording, actions) == Dispatched(t, recording, actions[0])
  {
    assert DispatchedAll(Dispatched(t, recording, actions[0]), recording, actions[1..]) == Dispatched(t, recording, actions[0]);
  }

  lemma TwoDispatched(t: Tables, recording: bool, actions: seq<Action>)
    requires |actions| == 2
    ensures DispatchedAll(t, recording, actions) == Dispatched(Dispatched(t, recording, actions[0]), recording, actions[1])
  {
    OneDispatched(Dispatched(t, recording, actions[0]), recording, actions[1..]);
  }

  function After(w: World, recording: bool, e: Event): World {
    var tables := DispatchedAll(w.tables, recording, ActionsOf(e));
    match e
    case Call(uuid, promise, cycles, attached) =>
      w.(tables := tables, calls := w.calls[uuid := Owner(promise, Accepted(cycles, attached))])
    case Settled(uuid, _) => w.(tables := tables, calls := w.calls - {uuid})
    case TimerSet(id, timer, interval) =>
      w.(tables := tables, live := w.live[id := Timer(timer, interval)], given := w.given + {id})
    case TimerFires(id) => w.(tables := tables)
    case TimerDone(id) => w.(tables := tables, live := w.live - {id})
    case TimerCleared(id) => w.(tables := tables, live := w.live - {id})
  }

  /** The events of a run, each enabled where it happens. */
  predicate Possible(w: World, recording: bool, events: seq<Event>)
    decreases |events|
  {
    events == [] || (Enabled(w, events[0]) && Possible(After(w, recording, events[0]), recording, events[1..]))
  }

  function AfterAll(w: World, recording: bool, events: seq<Event>): World
    decreases |events|
  {
    if events == [] then w else AfterAll(After(w, recording, events[0]), recording, events[1..])
  }

  // ---------- What every run keeps ----------

  /** Each of these calls owns one entry of this table, bound to its own promise, and there are no others. */
  ghost predicate CallsBound(table: map<string, Callback>, calls: map<string, Owner>, resolve: bool) {
    && (forall uuid :: uuid in calls ==>
          SettleId(resolve, uuid) in table && table[SettleId(resolve, uuid)] == SettlerOf(resolve, calls[uuid].promise))
    && (forall id :: id in table ==> exists uuid :: uuid in calls && id == SettleId(resolve, uuid))
  }

  /** Every entry of this table belongs to a pending call. */
  ghost predicate PendingOnly(table: map<string, Callback>, calls: map<string, Owner>, resolve: bool) {
    forall id :: id in table ==> exists uuid :: uuid in calls && calls[uuid].pending && id == SettleId(resolve, uuid)
  }

  /** A timer has its callback in the table exactly while it is live, and its id was given out. */
  ghost predicate TimersBound(table: map<nat, Callback>, live: map<nat, Timer>, given: set<nat>) {
    && (forall id :: id in live <==> id in table)
    && (forall id :: id in live ==> table[id] == TimerOf(live[id].timer) && id in given)
  }

  ghost predicate Faithful(w: World) {
    && (forall resolve :: CallsBound(SettleTable(w.tables, resolve), w.calls, resolve))
    && TimersBound(Entries(w.tables.timers), w.live, w.given)
  }

  /** The tables of settlers hold no entries but those of pending calls. */
  ghost predicate NothingElse(w: World) {
    forall resolve :: PendingOnly(SettleTable(w.tables, resolve), w.calls, resolve)
  }

  lemma IdsDiffer(resolve: bool, u: string, v: string)
    requires SettleId(resolve, u) == SettleId(resolve, v)
    ensures u == v
  {
    assert SettleId(resolve, u)[|Prefix(resolve)|..] == u;
    assert SettleId(resolve, v)[|Prefix(resolve)|..] == v;
  }

  lemma CallBinds(table: map<string, Callback>, calls: map<string, Owner>, resolve: bool, uuid: string, owner: Owner)
    requires CallsBound(table, calls, resolve) && uuid !in calls
    ensures CallsBound(table[SettleId(resolve, uuid) := SettlerOf(resolve, owner.promise)], calls[uuid := owner], resolve)
  {
    var table', calls' := table[SettleId(resolve, uuid) := SettlerOf(resolve, owner.promise)], calls[uuid := owner];
    forall u | u in calls'
      ensures SettleId(resolve, u) in table' && table'[SettleId(resolve, u)] == SettlerOf(resolve, calls'[u].promise)
    {
      if SettleId(resolve, u) == SettleId(resolve, uuid) {
        IdsDiffer(resolve, u, uuid);
      }
    }
    forall id | id in table' ensures exists u :: u in calls' && id == SettleId(resolve, u) {
      if id == SettleId(resolve, uuid) {
        assert uuid in calls';
      } else {
        var u :| u in calls && id == SettleId(resolve, u);
        assert u in calls';
      }
    }
  }

  lemma SettlementUnbinds(table: map<string, Callback>, calls: map<string, Owner>, resolve: bool, uuid: string)
    requires CallsBound(table, calls, resolve)
    ensures CallsBound(table - {SettleId(resolve, uuid)}, calls - {uuid}, resolve)
  {
    var table', calls' := table - {SettleId(resolve, uuid)}, calls - {uuid};
    forall u | u in calls'
      ensures SettleId(resolve, u) in table' && table'[SettleId(resolve, u)] == SettlerOf(resolve, calls'[u].promise)
    {
      if SettleId(resolve, u) == SettleId(resolve, uuid) {
        IdsDiffer(resolve, u, uuid);
      }
    }
    forall id | id in table' ensures exists u :: u in calls' && id == SettleId(resolve, u) {
      var u :| u in calls && id == SettleId(resolve, u);
      assert u in calls';
    }
  }

  lemma BothPut(t: Tables, recording: bool, a: Action, b: Action)
    requires a.SetResolve? && b.SetReject?
    ensures var t' := Dispatched(Dispatched(t, recording, a), recording, b);
            && SettleTable(t', true) == SettleTable(t, true)[a.id := a.callback]
            && SettleTable(t', false) == SettleTable(t, false)[b.id := b.callback]
            && t'.timers == t.timers
  {
  }

  lemma BothDeleted(t: Tables, recording: bool, a: Action, b: Action)
    requires a.DeleteResolve? && b.DeleteReject?
    ensures var t' := Dispatched(Dispatched(t, recording, a), recording, b);
            && SettleTable(t', true) == SettleTable(t, true) - {a.id}
            && SettleTable(t', false) == SettleTable(t, false) - {b.id}
            && t'.timers == t.timers
  {
  }

  lemma CallKeeps(w: World, recording: bool, e: Event)
    requires Faithful(w) && Enabled(w, e) && e.Call?
    ensures Faithful(After(w, recording, e))
  {
    var actions := ActionsOf(e);
    TwoDispatched(w.tables, recording, actions);
    BothPut(w.tables, recording, actions[0], actions[1]);
    var owner := Owner(e.promise, Accepted(e.cycles, e.attached));
    CallBinds(SettleTable(w.tables, true), w.calls, true, e.uuid, owner);
    CallBinds(SettleTable(w.tables, false), w.calls, false, e.uuid, owner);
  }

  lemma SettledKeeps(w: World, recording: bool, e: Event)
    requires Faithful(w) && Enabled(w, e) && e.Settled?
    ensures Faithful(After(w, recording, e))
  {
    var actions := ActionsOf(e);
    TwoDispatched(w.tables, recording, actions);
    BothDeleted(w.tables, recording, actions[0], actions[1]);
    SettlementUnbinds(SettleTable(w.tables, true), w.calls, true, e.uuid);
    SettlementUnbinds(SettleTable(w.tables, false), w.calls, false, e.uuid);
  }

  lemma TimerBinds(table: map<nat, Callback>, live: map<nat, Timer>, given: set<nat>, id: nat, timer: Timer)
    requires TimersBound(table, live, given)
    ensures TimersBound(table[id := TimerOf(timer.timer)], live[id := timer], given + {id})
  {
  }

  lemma TimerUnbinds(table: map<nat, Callback>, live: map<nat, Timer>, given: set<nat>, id: nat)
    requires TimersBound(table, live, given)
    ensures TimersBound(table - {id}, live - {id}, given)
  {
  }

  lemma OnlyTimers(t: Tables, recording: bool, a: Action)
    requires a.SetTimer? || a.DeleteTimer?
    ensures var t' := Dispatched(t, recording, a);
            && SettleTable(t', true) == SettleTable(t, true) && SettleTable(t', false) == SettleTable(t, false)
            && Entries(t'.timers) == if a.SetTimer? then Entries(t.timers)[a.timerId := a.callback]
                                     else Entries(t.timers) - {a.timerId}
  {
  }

  lemma TimerKeeps(w: World, recording: bool, e: Event)
    requires Faithful(w) && Enabled(w, e) && !e.Call? && !e.Settled?
    ensures Faithful(After(w, recording, e))
  {
    if !e.TimerFires? {
      var actions := ActionsOf(e);
      OneDispatched(w.tables, recording, actions);
      OnlyTimers(w.tables, recording, actions[0]);
      var timers := Entries(w.tables.timers);
      if e.TimerSet? {
        TimerBinds(timers, w.live, w.given, e.id, Timer(e.timer, e.interval));
      } else {
        TimerUnbinds(timers, w.live, w.given, e.id);
      }
    }
  }

  lemma EventKeeps(w: World, recording: bool, e: Event)
    requires Faithful(w) && Enabled(w, e)
    ensures Faithful(After(w, recording, e))
  {
    if e.Call? {
      CallKeeps(w, recording, e);
    } else if e.Settled? {
      SettledKeeps(w, recording, e);
    } else {
      TimerKeeps(w, recording, e);
    }
  }

  /** Every interleaving of calls, settlements and timers keeps the tables so. */
  lemma {:induction false} RunKeeps(w: World, recording: bool, events: seq<Event>)
    requires Faithful(w) && Possible(w, recording, events)
    ensures Faithful(AfterAll(w, recording, events))
    decreases |events|
  {
    if events != [] {
      EventKeeps(w, recording, events[0]);
      RunKeeps(After(w, recording, events[0]), recording, events[1..]);
    }
  }

  /** `callRaw` accepts every call of the run. */
  predicate AllAccepted(events: seq<Event>) {
    events == [] || ((events[0].Call? ==> Accepted(events[0].cycles, events[0].attached)) && AllAccepted(events[1..]))
  }

  /** No call is left whose `callRaw` threw. */
  predicate NoneRefused(w: World) {
    forall uuid :: uuid in w.calls ==> w.calls[uuid].pending
  }

  lemma EventRefuses(w: World, recording: bool, e: Event)
    requires Enabled(w, e)
    ensures NoneRefused(After(w, recording, e)) <==> NoneRefused(w) && (e.Call? ==> Accepted(e.cycles, e.attached))
    ensures forall uuid :: uuid in w.calls && !w.calls[uuid].pending ==>
              uuid in After(w, recording, e).calls && !After(w, recording, e).calls[uuid].pending
  {
    var w' := After(w, recording, e);
    if e.Call? {
      assert e.uuid in w'.calls;
    }
    forall uuid | uuid in w.calls && !w.calls[uuid].pending ensures uuid in w'.calls && w'.calls[uuid] == w.calls[uuid] {
    }
  }

  /** A refused call stays, and there is one exactly if the run has made one. */
  lemma {:induction false} RunRefuses(w: World, recording: bool, events: seq<Event>)
    requires Possible(w, recording, events)
    ensures NoneRefused(AfterAll(w, recording, events)) <==> NoneRefused(w) && AllAccepted(events)
    ensures forall uuid :: uuid in w.calls && !w.calls[uuid].pending ==>
              uuid in AfterAll(w, recording, events).calls && !AfterAll(w, recording, events).calls[uuid].pending
    decreases |events|
  {
    if events != [] {
      EventRefuses(w, recording, events[0]);
      RunRefuses(After(w, recording, events[0]), recording, events[1..]);
    }
  }

  lemma RefusedIsExtra(table: map<string, Callback>, calls: map<string, Owner>, resolve: bool)
    requires CallsBound(table, calls, resolve)
    ensures PendingOnly(table, calls, resolve) <==> forall uuid :: uuid in calls ==> calls[uuid].pending
  {
    if PendingOnly(table, calls, resolve) {
      forall uuid | uuid in calls ensures calls[uuid].pending {
        var other :| other in calls && calls[other].pending && SettleId(resolve, uuid) == SettleId(resolve, other);
        IdsDiffer(resolve, uuid, other);
      }
    }
    if forall uuid :: uuid in calls ==> calls[uuid].pending {
      forall id | id in table ensures exists uuid :: uuid in calls && calls[uuid].pending && id == SettleId(resolve, uuid) {
        var uuid :| uuid in calls && id == SettleId(resolve, uuid);
        assert calls[uuid].pending;
      }
    }
  }

  lemma NothingElseMeans(w: World, resolve: bool)
    requires CallsBound(SettleTable(w.tables, resolve), w.calls, resolve)
    ensures PendingOnly(SettleTable(w.tables, resolve), w.calls, resolve) <==> NoneRefused(w)
  {
    RefusedIsExtra(SettleTable(w.tables, resolve), w.calls, resolve);
  }

  lemma ExactMeansNoneRefused(w: World)
    requires Faithful(w)
    ensures NothingElse(w) <==> NoneRefused(w)
  {
    forall resolve ensures PendingOnly(SettleTable(w.tables, resolve), w.calls, resolve) <==> NoneRefused(w) {
      NothingElseMeans(w, resolve);
    }
    assert NothingElse(w) ==> PendingOnly(SettleTable(w.tables, true), w.calls, true);
  }

  /** After any run, the tables hold exactly the entries of the pending calls and the live timers if and
      only if `callRaw` accepted every call. */
  lemma TablesAreExact(recording: bool, events: seq<Event>)
    requires Possible(START, recording, events)
    ensures Faithful(AfterAll(START, recording, events))
    ensures NothingElse(AfterAll(START, recording, events)) <==> AllAccepted(events)
  {
    RunKeeps(START, recording, events);
    RunRefuses(START, recording, events);
    ExactMeansNoneRefused(AfterAll(START, recording, events));
  }

  /** After any run, whatever the runtime invokes next is the callback of its own promise or timer. */
  lemma EveryRunIsFaithful(recording: bool, events: seq<Event>, e: Event)
    requires Possible(START, recording, events)
    ensures var w := AfterAll(START, recording, events);
            && Faithful(w)
            && (Enabled(w, e) && e.Settled? ==>
                  Invoked(w.tables, e) == Some(SettlerOf(e.resolved, w.calls[e.uuid].promise)))
            && (Enabled(w, e) && e.TimerFires? ==> Invoked(w.tables, e) == Some(TimerOf(w.live[e.id].timer)))
  {
    RunKeeps(START, recording, events);
  }

  predicate AllEmpty(t: Tables) {
    (forall resolve :: SettleTable(t, resolve) == map[]) && Entries(t.timers) == map[]
  }

  /** Once nothing is pending or live, the tables are empty again if and only if `callRaw` accepted every
      call. */
  lemma NothingIsLeft(recording: bool, events: seq<Event>)
    requires Possible(START, recording, events)
    requires var w := AfterAll(START, recording, events); w.live == map[] && forall uuid :: uuid in w.calls ==> !w.calls[uuid].pending
    ensures AllEmpty(AfterAll(START, recording, events).tables) <==> AllAccepted(events)
  {
    RunKeeps(START, recording, events);
    RunRefuses(START, recording, events);
    EmptyExactly(AfterAll(START, recording, events));
  }

  lemma EmptyTable(table: map<string, Callback>, calls: map<string, Owner>, resolve: bool)
    requires CallsBound(table, calls, resolve)
    ensures table == map[] <==> calls == map[]
  {
    if uuid :| uuid in calls {
      assert SettleId(resolve, uuid) in table;
    } else {
      assert forall id :: id !in table;
    }
  }

  lemma EmptyExactly(w: World)
    requires Faithful(w) && w.live == map[] && forall uuid :: uuid in w.calls ==> !w.calls[uuid].pending
    ensures AllEmpty(w.tables) <==> NoneRefused(w)
  {
    forall resolve ensures SettleTable(w.tables, resolve) == map[] <==> w.calls == map[] {
      EmptyTable(SettleTable(w.tables, resolve), w.calls, resolve);
    }
    assert NoneRefused(w) <==> w.calls == map[];
    assert AllEmpty(w.tables) ==> SettleTable(w.tables, true) == map[];
  }

  /** A refused call leaves both its entries for good, although its promise was rejected at once. */
  lemma RefusedCallStays(w: World, recording: bool, e: Event, events: seq<Event>)
    requires Faithful(w) && e.Call? && Enabled(w, e) && !Accepted(e.cycles, e.attached)
    requires Possible(After(w, recording, e), recording, events)
    ensures var end := AfterAll(After(w, recording, e), recording, events);
            && !IsPending(end, e.uuid)
            && SettleId(true, e.uuid) in SettleTable(end.tables, true)
            && SettleId(false, e.uuid) in SettleTable(end.tables, false)
  {
    EventKeeps(w, recording, e);
    RunKeeps(After(w, recording, e), recording, events);
    RunRefuses(After(w, recording, e), recording, events);
  }

  /** A single call with -1 cycles does it, or one with 2 to the 128th. */
  lemma TooFewOrTooManyCycles(recording: bool, uuid: string, promise: nat, cycles: int)
    requires cycles == -1 || cycles == 0x1_0000_0000_0000_0000_0000_0000_0000_0000
    ensures var events := [Call(uuid, promise, cycles, true)];
            && Possible(START, recording, events)
            && var w := AfterAll(START, recording, events);
               !IsPending(w, uuid) && SettleId(true, uuid) in SettleTable(w.tables, true) && !NothingElse(w)
  {
    var e := Call(uuid, promise, cycles, true);
    OneEvent(START, recording, e);
    RefusedCallStays(START, recording, e, []);
    TablesAreExact(recording, [e]);
  }

  /** A call puts both callbacks of its promise under its uuid, with these keys and nothing else, and is
      pending exactly if its arguments are attached and its cycles fit into 128 bits. */
  lemma CallPutsBoth(w: World, recording: bool, uuid: string, promise: nat, cycles: int, attached: bool)
    ensures var t := After(w, recording, Call(uuid, promise, cycles, attached)).tables;
            && Entries(t.resolves) == Entries(w.tables.resolves)["_resolve_" + uuid := ResolveOf(promise)]
            && Entries(t.rejects) == Entries(w.tables.rejects)["_reject_" + uuid := RejectOf(promise)]
            && t.timers == w.tables.timers
    ensures IsPending(After(w, recording, Call(uuid, promise, cycles, attached)), uuid) <==>
            attached && 0 <= cycles < 0x1_0000_0000_0000_0000_0000_0000_0000_0000
  {
    TwoDispatched(w.tables, recording, ActionsOf(Call(uuid, promise, cycles, attached)));
  }

  /** The end of a call invokes the callback under its key in the table that its outcome asks for, and
      deletes both entries and nothing else. */
  lemma SettlingTakesBoth(w: World, recording: bool, uuid: string, resolved: bool)
    ensures var t := After(w, recording, Settled(uuid, resolved)).tables;
            && Entries(t.resolves) == Entries(w.tables.resolves) - {"_resolve_" + uuid}
            && Entries(t.rejects) == Entries(w.tables.rejects) - {"_reject_" + uuid}
            && t.timers == w.tables.timers
    ensures var table := Entries(if resolved then w.tables.resolves else w.tables.rejects);
            var key := (if resolved then "_resolve_" else "_reject_") + uuid;
            Invoked(w.tables, Settled(uuid, resolved)) == if key in table then Some(table[key]) else None
  {
    TwoDispatched(w.tables, recording, ActionsOf(Settled(uuid, resolved)));
  }

  lemma OneEvent(w: World, recording: bool, e: Event)
    requires Enabled(w, e)
    ensures Possible(w, recording, [e]) && AfterAll(w, recording, [e]) == After(w, recording, e)
  {
    assert [e][1..] == [];
    assert AfterAll(After(w, recording, e), recording, []) == After(w, recording, e);
  }

  // ---------- Replay ----------

  function Replayed(t: Tables, actions: seq<Action>): Tables {
    if actions == [] then t else Reduced(Replayed(t, actions[..|actions| - 1]), actions[|actions| - 1])
  }

  /** The log tells how the tables came about. */
  predicate Logged(t: Tables) {
    t == Replayed(EMPTY, if t.actions.Some? then t.actions.value else []).(actions := t.actions)
  }

  lemma DispatchLogs(t: Tables, a: Action)
    requires Logged(t)
    ensures Logged(Dispatched(t, true, a))
  {
    var log := if t.actions.Some? then t.actions.value else [];
    assert (log + [a])[..|log|] == log;
  }

  lemma {:induction false} DispatchAllLogs(t: Tables, actions: seq<Action>)
    requires Logged(t)
    ensures Logged(DispatchedAll(t, true, actions))
    decreases |actions|
  {
    if actions != [] {
      DispatchLogs(t, actions[0]);
      DispatchAllLogs(Dispatched(t, true, actions[0]), actions[1..]);
    }
  }

  /** With recording on from the start, replaying the recorded actions from empty tables gives the
      tables, after any events in any order. */
  lemma {:induction false} RunIsReplayed(w: World, events: seq<Event>)
    requires Logged(w.tables)
    ensures Logged(AfterAll(w, true, events).tables)
    decreases |events|
  {
    if events != [] {
      DispatchAllLogs(w.tables, ActionsOf(events[0]));
      RunIsReplayed(After(w, true, events[0]), events[1..]);
    }
  }

  /** Whether the last action about a timer sets it, and then with which callback. */
  function LastSet(actions: seq<Action>, id: nat): Option<Callback> {
    if actions == [] then None
    else
      match actions[|actions| - 1]
      case SetTimer(timerId, callback) => if timerId == id then Some(callback) else LastSet(actions[..|actions| - 1], id)
      case DeleteTimer(timerId) => if timerId == id then None else LastSet(actions[..|actions| - 1], id)
      case _ => LastSet(actions[..|actions| - 1], id)
  }

  /** A timer id has a callback exactly when it was set and not deleted since. */
  lemma {:induction false} TimerHasLastSet(actions: seq<Action>, id: nat)
    ensures var timers := Entries(Replayed(EMPTY, actions).timers);
            LastSet(actions, id) == if id in timers then Some(timers[id]) else None
  {
    if actions != [] {
      TimerHasLastSet(actions[..|actions| - 1], id);
    }
  }
}
