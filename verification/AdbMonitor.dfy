/** The desktop's ADB monitor, which polls the device list and reports what changed. */
module AdbMonitor {

  import opened Wrappers

  datatype DeviceState = Device | Unauthorized | Offline | Recovery | Bootloader | Sideload | Unknown(token: string)

  /** `details` stands for what `adb devices -l` says beside serial and state. */
  datatype AdbDevice = AdbDevice(serial: string, state: DeviceState, details: string)

  datatype EventKind = Connected | Disconnected | StateChanged

  datatype Event = Event(
    serial: string, kind: EventKind, previousState: Option<DeviceState>, currentState: Option<DeviceState>,
    device: Option<AdbDevice>)

  type Devices = map<string, AdbDevice>
  type States = map<string, DeviceState>

  datatype Poll = Listed(devices: seq<AdbDevice>) | NoDevices | PollFailed

  // ----- Polls -----

  /** By serial; the last of several entries counts. */
  function Collect(devices: seq<AdbDevice>): Devices {
    if devices == [] then map[]
    else Collect(devices[..|devices| - 1])[devices[|devices| - 1].serial := devices[|devices| - 1]]
  }

  /** The devices the monitor remembers after a poll. */
  function Remembered(previous: Devices, poll: Poll): Devices {
    match poll
    case Listed(devices) => Collect(devices)
    case NoDevices => map[]
    case PollFailed => previous
  }

  /** The device list of the last poll that succeeded. */
  function LastSeen(polls: seq<Poll>): Devices {
    if polls == [] then map[] else Remembered(LastSeen(polls[..|polls| - 1]), polls[|polls| - 1])
  }

  function StatesOf(devices: Devices): States {
    map s | s in devices :: devices[s].state
  }

  /** A serial is known exactly if an entry has it, and then as the last such entry says. */
  lemma {:induction false} CollectMeaning(devices: seq<AdbDevice>, serial: string)
    ensures serial in Collect(devices) <==> exists d | d in devices :: d.serial == serial
    ensures serial in Collect(devices) ==>
              exists k | 0 <= k < |devices| ::
                && devices[k].serial == serial && Collect(devices)[serial] == devices[k]
                && forall j | k < j < |devices| :: devices[j].serial != serial
  {
    if devices != [] {
      var init, last := devices[..|devices| - 1], devices[|devices| - 1];
      CollectMeaning(init, serial);
      assert devices == init + [last];
      hide Collect;
      if last.serial != serial && serial in Collect(init) {
        var k :| 0 <= k < |init| && init[k].serial == serial && Collect(init)[serial] == init[k]
                 && forall j | k < j < |init| :: init[j].serial != serial;
        assert devices[k] == init[k];
      }
    }
  }

  /** What the monitor remembers is the list of the last poll that did not fail, or nothing before the first. */
  lemma {:induction false} LastSeenExactly(polls: seq<Poll>, k: int)
    requires -1 <= k < |polls| && (forall j | k < j < |polls| :: polls[j].PollFailed?)
    requires k >= 0 ==> !polls[k].PollFailed?
    ensures LastSeen(polls) == if k >= 0 && polls[k].Listed? then Collect(polls[k].devices) else map[]
  {
    if polls != [] && polls[|polls| - 1].PollFailed? {
      LastSeenExactly(polls[..|polls| - 1], k);
    }
  }

  // ----- Reading the log -----

  /** A listener's view of the states after one more event; none when the event contradicts it. */
  function Apply(states: States, e: Event): Option<States> {
    if e.previousState != (if e.serial in states then Some(states[e.serial]) else None) then None
    else
      match e.kind
      case Connected =>
        if e.previousState.None? && e.currentState.Some?
        then Some(states[e.serial := e.currentState.value]) else None
      case StateChanged =>
        if e.previousState.Some? && e.currentState.Some? && e.currentState != e.previousState
        then Some(states[e.serial := e.currentState.value]) else None
      case Disconnected => if e.previousState.Some? && e.currentState.None? then Some(states - {e.serial}) else None
  }

  function Replay(states: States, events: seq<Event>): Option<States> {
    if events == [] then Some(states)
    else
      var before := Replay(states, events[..|events| - 1]);
      if before.None? then None else Apply(before.value, events[|events| - 1])
  }

  lemma {:induction false} ReplayJoins(states: States, a: seq<Event>, b: seq<Event>)
    requires Replay(states, a).Some?
    ensures Replay(states, a + b) == Replay(Replay(states, a).value, b)
  {
    if b == [] {
      assert a + b == a;
    } else {
      assert (a + b)[..|a + b| - 1] == a + b[..|b| - 1];
      ReplayJoins(states, a, b[..|b| - 1]);
    }
  }

  // ----- One poll's events -----

  /** What changed for one serial. */
  function Change(previous: Devices, current: Devices, serial: string): Option<Event> {
    if serial in current then
      if serial !in previous then Some(Event(serial, Connected, None, Some(current[serial].state), Some(current[serial])))
      else if previous[serial].state == current[serial].state then None
      else Some(Event(serial, StateChanged, Some(previous[serial].state), Some(current[serial].state), Some(current[serial])))
    else if serial in previous then
      Some(Event(serial, Disconnected, Some(previous[serial].state), None, Some(previous[serial])))
    else None
  }

  /** `events` reports each change among `done`, once, and nothing else, in whatever order. */
  ghost predicate Reports(previous: Devices, current: Devices, done: set<string>, events: seq<Event>) {
    && (forall i, j | 0 <= i < j < |events| :: events[i].serial != events[j].serial)
    && (forall e | e in events :: e.serial in done && Change(previous, current, e.serial) == Some(e))
    && (forall s | s in done && Change(previous, current, s).Some? :: Change(previous, current, s).value in events)
  }

  /** What a report says of one serial: a device that came or changed its state is as the new poll lists it, one that
      went is as it was last listed. */
  ghost predicate Tells(previous: Devices, current: Devices, e: Event) {
    var before := if e.serial in previous then Some(previous[e.serial]) else None;
    var now := if e.serial in current then Some(current[e.serial]) else None;
    && e.previousState == (if before.Some? then Some(before.value.state) else None)
    && e.currentState == (if now.Some? then Some(now.value.state) else None)
    && e.previousState != e.currentState
    && e.device == (if now.Some? then now else before)
    && (e.kind == if before.None? then Connected else if now.None? then Disconnected else StateChanged)
  }

  /** A report holds exactly the events that say what changed, each once. */
  lemma ReportsExactly(previous: Devices, current: Devices, events: seq<Event>)
    ensures Reports(previous, current, previous.Keys + current.Keys, events) <==>
            && (forall e :: e in events <==> Tells(previous, current, e))
            && (forall i, j | 0 <= i < j < |events| :: events[i].serial != events[j].serial)
  {
    forall e: Event ensures Tells(previous, current, e) <==> Change(previous, current, e.serial) == Some(e) {}
    forall s | Change(previous, current, s).Some?
      ensures s in previous.Keys + current.Keys && Change(previous, current, s).value.serial == s {}
    hide Change, Tells;
    if forall e :: e in events <==> Tells(previous, current, e) {
      forall s | s in previous.Keys + current.Keys && Change(previous, current, s).Some?
        ensures Change(previous, current, s).value in events
      {
        assert Tells(previous, current, Change(previous, current, s).value);
      }
    }
  }

  /** The states once the changes among `done` are known. */
  ghost function Mixed(previous: Devices, current: Devices, done: set<string>): States {
    map s | s in previous.Keys + current.Keys && (if s in done then s in current else s in previous)
      :: if s in done then current[s].state else previous[s].state
  }

  lemma MixedStep(previous: Devices, current: Devices, done: set<string>, serial: string)
    requires serial !in done && Change(previous, current, serial).Some?
    ensures Apply(Mixed(previous, current, done), Change(previous, current, serial).value)
         == Some(Mixed(previous, current, done + {serial}))
  {
    var states, more := Mixed(previous, current, done), Mixed(previous, current, done + {serial});
    if serial in current {
      assert more == states[serial := current[serial].state];
    } else {
      assert more == states - {serial};
    }
  }

  ghost function Serials(events: seq<Event>): set<string> {
    set e | e in events :: e.serial
  }

  lemma {:induction false} ReplaysChanges(previous: Devices, current: Devices, events: seq<Event>)
    requires forall i, j | 0 <= i < j < |events| :: events[i].serial != events[j].serial
    requires forall e | e in events :: Change(previous, current, e.serial) == Some(e)
    ensures Replay(StatesOf(previous), events) == Some(Mixed(previous, current, Serials(events)))
  {
    hide Change, Apply;
    if events == [] {
      assert Serials(events) == {} && StatesOf(previous) == Mixed(previous, current, {});
    } else {
      var before, last := events[..|events| - 1], events[|events| - 1];
      ReplaysChanges(previous, current, before);
      assert events == before + [last];
      assert Serials(events) == Serials(before) + {last.serial} && last.serial !in Serials(before);
      hide Mixed;
      MixedStep(previous, current, Serials(before), last.serial);
    }
  }

  /** Replaying a full report from the old states gives the new states, and no event contradicts the state before
      it. */
  lemma ReplaysReport(previous: Devices, current: Devices, events: seq<Event>)
    requires Reports(previous, current, previous.Keys + current.Keys, events)
    ensures Replay(StatesOf(previous), events) == Some(StatesOf(current))
  {
    ReplaysChanges(previous, current, events);
    var done := Serials(events);
    forall s | s in previous.Keys + current.Keys && s !in done
      ensures s in previous && s in current && previous[s].state == current[s].state
    {
      assert Change(previous, current, s).Some? ==> Change(previous, current, s).value.serial in done;
    }
    assert Mixed(previous, current, done) == StatesOf(current);
  }

  // ----- The monitor -----

  class DeviceMonitor {
    var previous: Devices
    ghost var log: seq<Event>
    ghost var polls: seq<Poll>

    /** The log so far tells a listener exactly what the last successful poll saw. */
    ghost predicate Valid()
      reads this
    {
      previous == LastSeen(polls) && Replay(map[], log) == Some(StatesOf(previous))
    }

    constructor ()
      ensures Valid() && previous == map[] && log == [] && polls == []
    {
      previous, log, polls := map[], [], [];
    }

    method Tick(poll: Poll) returns (events: seq<Event>)
      requires Valid()
      modifies this
      ensures Valid() && polls == old(polls) + [poll] && log == old(log) + events
      ensures previous == Remembered(old(previous), poll)
      ensures Reports(old(previous), previous, old(previous).Keys + previous.Keys, events)
    {
      hide Replay;
      assert (polls + [poll])[..|polls|] == polls;
      ghost var before := previous;
      polls := polls + [poll];
      if poll.PollFailed? {
        assert forall s | s in previous :: Change(previous, previous, s).None?;
        return [];
      }
      var current := map[];
      if poll.Listed? { current := CollectBySerial(poll.devices); }
      events := Difference(previous, current);
      ReplaysReport(previous, current, events);
      ReplayJoins(map[], log, events);
      log := log + events;
      previous := current;
    }
  }

  method CollectBySerial(devices: seq<AdbDevice>) returns (current: Devices)
    ensures current == Collect(devices)
  {
    current := map[];
    for i := 0 to |devices|
      invariant current == Collect(devices[..i])
    {
      assert devices[..i + 1][..i] == devices[..i];
      current := current[devices[i].serial := devices[i]];
    }
    assert devices[..|devices|] == devices;
  }

  function AsList(change: Option<Event>): seq<Event> {
    if change.Some? then [change.value] else []
  }

  lemma ReportsOneMore(previous: Devices, current: Devices, done: set<string>, events: seq<Event>, serial: string)
    requires Reports(previous, current, done, events) && serial !in done
    ensures Reports(previous, current, done + {serial}, events + AsList(Change(previous, current, serial)))
  {
    var change := Change(previous, current, serial);
    assert change.Some? ==> change.value.serial == serial;
    hide Change;
    assert forall e | e in events :: e.serial != serial;
  }

  method Difference(previous: Devices, current: Devices) returns (events: seq<Event>)
    ensures Reports(previous, current, previous.Keys + current.Keys, events)
  {
    hide Reports;
    events := [];
    var left := current.Keys;
    NoReports(previous, current);
    ghost var done := {};
    while left != {}
      invariant done == current.Keys - left && Reports(previous, current, done, events)
    {
      var serial :| serial in left;
      left := left - {serial};
      ReportsOneMore(previous, current, done, events, serial);
      done := done + {serial};
      if serial !in previous {
        events := events + [Event(serial, Connected, None, Some(current[serial].state), Some(current[serial]))];
      } else if previous[serial].state != current[serial].state {
        events := events + [Event(serial, StateChanged, Some(previous[serial].state), Some(current[serial].state), Some(current[serial]))];
      } else {
        assert events + [] == events;
      }
    }
    left := previous.Keys;
    while left != {}
      invariant left <= previous.Keys && done == current.Keys + (previous.Keys - left) && Reports(previous, current, done, events)
    {
      var serial :| serial in left;
      left := left - {serial};
      if serial !in current {
        ReportsOneMore(previous, current, done, events, serial);
        done := done + {serial};
        events := events + [Event(serial, Disconnected, Some(previous[serial].state), None, Some(previous[serial]))];
      }
    }
    assert done == previous.Keys + current.Keys;
  }

  lemma NoReports(previous: Devices, current: Devices)
    ensures Reports(previous, current, {}, [])
  {
  }

  // ----- Every run -----

  /** Each batch of events reports one poll. */
  ghost predicate ReportsAll(polls: seq<Poll>, batches: seq<seq<Event>>) {
    && |batches| == |polls|
    && forall i | 0 <= i < |polls| ::
         var previous, current := LastSeen(polls[..i]), LastSeen(polls[..i + 1]);
         Reports(previous, current, previous.Keys + current.Keys, batches[i])
  }

  function Joined(batches: seq<seq<Event>>): seq<Event> {
    if batches == [] then [] else Joined(batches[..|batches| - 1]) + batches[|batches| - 1]
  }

  /** After any successful and failed polls, the whole log, replayed from nothing, gives the states that the last
      successful poll saw. */
  lemma {:induction false} LogIsTheLastPoll(polls: seq<Poll>, batches: seq<seq<Event>>)
    requires ReportsAll(polls, batches)
    ensures Replay(map[], Joined(batches)) == Some(StatesOf(LastSeen(polls)))
  {
    hide Reports;
    if polls == [] {
      assert StatesOf(map[]) == map[];
    } else {
      var n := |polls| - 1;
      assert forall i | 0 <= i <= n :: polls[..n][..i] == polls[..i];
      LogIsTheLastPoll(polls[..n], batches[..n]);
      assert polls[..n + 1] == polls;
      ReplaysReport(LastSeen(polls[..n]), LastSeen(polls), batches[n]);
      ReplayJoins(map[], Joined(batches[..n]), batches[n]);
    }
  }

  /** Each event names as previous state what the log before it says. */
  lemma {:induction false} PreviousStateIsReplayed(states: States, events: seq<Event>, k: nat)
    requires Replay(states, events).Some? && k < |events|
    ensures var before := Replay(states, events[..k]);
            && before.Some?
            && events[k].previousState == if events[k].serial in before.value then Some(before.value[events[k].serial]) else None
  {
    var n := |events| - 1;
    if k < n {
      PreviousStateIsReplayed(states, events[..n], k);
      assert events[..n][..k] == events[..k];
    }
  }
}
