/** The Java receiver `DataStream`: the schema-derived sizes, the value cache, the
    listener list, the `running` flag and the body of the receive loop (key filter,
    decode, cache update, one snapshot fanned out to every listener). Sockets are
    abstracted to the datagrams they deliver; the other threads' calls (`stop`,
    `addListener`, `clearListeners`) are events interleaved with the arrivals. */
module Receiver {
  import opened Bytes
  import opened Wrappers
  import opened Schema
  import opened Codec
  import M = Multicast

  /** `DataStream.Mode`. */
  datatype Mode = Unicast | Multicast | Broadcast

  /** What `socket.receive(packet)` leaves behind: the receive buffer, the received
      length, and the sender's address. */
  datatype Datagram = Datagram(data: seq<Byte>, length: nat, source: string)

  /** A datagram whose length fits its buffer, as the socket guarantees. */
  type Received = d: Datagram | d.length <= |d.data| witness Datagram([], 0, "")

  /** A registered `Consumer<Map<String, Double>>`, by identity. */
  type Listener = nat

  /** One `l.accept(snap)` call. */
  datatype Delivery = Delivery(listener: Listener, snapshot: map<string, U32>)

  /** What the receive loop can observe between two checks of `running`. */
  datatype Event =
    | Arrive(d: Received)        // `socket.receive` returned a datagram
    | Timeout                    // the one-second receive timeout expired
    | StopRequested              // another thread called `stop()`
    | ListenerAdded(l: Listener) // another thread called `addListener(l)`
    | ListenersCleared           // another thread called `clearListeners()`
    | ReceiveFailed              // `socket.receive` threw an I/O error

  /** The mutable part of a `DataStream`. */
  datatype State = State(values: map<string, U32>, listeners: seq<Listener>, running: bool,
                         delivered: seq<Delivery>)

  /** The decode step of the loop: with `keyFilter >= 0` a datagram whose key differs is
      dropped before it is parsed; the survivors go through `parseIenaPacket`. */
  function Decode(keyFilter: int, n: nat, d: Received): Option<seq<U32>>
  {
    if keyFilter >= 0 && ParseIenaKey(d.data, d.length) != keyFilter then None
    else ParseJava(d.data, d.length, n)
  }

  /** The cache after `values.put(names[i], slots[i])` for i = 0, 1, ... in order. */
  function StoreAll(vals: map<string, U32>, names: seq<string>, slots: seq<U32>): map<string, U32>
    requires |slots| == |names|
    decreases |names|
  {
    if names == [] then vals
    else
      var k := |names| - 1;
      StoreAll(vals, names[..k], slots[..k])[names[k] := slots[k]]
  }

  /** One delivery of `snap` per listener, in registration order. */
  function Fanout(ls: seq<Listener>, snap: map<string, U32>): seq<Delivery>
  {
    seq(|ls|, i requires 0 <= i < |ls| => Delivery(ls[i], snap))
  }

  /** One event handled by the receive loop of a stream with filter `keyFilter` and
      parameter names `names`. */
  function Step(keyFilter: int, names: seq<string>, st: State, e: Event): State
  {
    match e
    case Arrive(d) =>
      (match Decode(keyFilter, |names|, d)
       case None => st
       case Some(slots) =>
         var vals := StoreAll(st.values, names, slots);
         st.(values := vals, delivered := st.delivered + Fanout(st.listeners, vals)))
    case Timeout => st
    case StopRequested => st.(running := false)
    case ListenerAdded(l) => st.(listeners := st.listeners + [l])
    case ListenersCleared => st.(listeners := [])
    case ReceiveFailed => st
  }

  /** `while (running) { ... }`: events are handled while `running` holds; a receive error
      ends the loop. */
  function Run(keyFilter: int, names: seq<string>, st: State, events: seq<Event>): State
    decreases |events|
  {
    if events == [] || !st.running || events[0].ReceiveFailed? then st
    else Run(keyFilter, names, Step(keyFilter, names, st, events[0]), events[1..])
  }

  // ------------------------------------------------------------------
  // Properties of the loop body
  // ------------------------------------------------------------------

  /** With a filter set, a datagram with another key never reaches the decoder; a
      datagram shorter than two bytes (key -1) is among them. */
  lemma FilteredBeforeDecoding(keyFilter: int, n: nat, d: Received)
    requires keyFilter >= 0
    ensures ParseIenaKey(d.data, d.length) != keyFilter ==> Decode(keyFilter, n, d) == None
    ensures d.length < 2 ==> Decode(keyFilter, n, d) == None
    ensures Decode(keyFilter, n, d).Some? ==> d.length >= 2 && BE16(d.data, 0) == keyFilter
  {
  }

  /** The filter -1 lets every key through: the result is `parseIenaPacket`'s. */
  lemma NoFilterAcceptsEveryKey(keyFilter: int, n: nat, d: Received)
    requires keyFilter < 0
    ensures Decode(keyFilter, n, d) == ParseJava(d.data, d.length, n)
  {
  }

  /** Filtering before decoding (Java) and after decoding (Python) accept the same
      datagrams with the same slots, for every non-negative filter (one above 65535
      matches no key in either). */
  lemma FilterOrderIrrelevant(keyFilter: int, n: nat, d: Received)
    requires keyFilter >= 0
    ensures Decode(keyFilter, n, d).Some? <==>
              ParsePy(d.data[..d.length], n).Some? && ParsePy(d.data[..d.length], n).value.key == keyFilter
    ensures Decode(keyFilter, n, d).Some? ==> Decode(keyFilter, n, d).value == ParsePy(d.data[..d.length], n).value.values
  {
    ParsersAgree(d.data, d.length, n);
  }

  /** The "accept all" filter -1 is Java's alone: Java then decodes every well-formed
      packet, while Python's `pkt['key'] != key_filter` rejects every one. */
  lemma NegativeFilterDiffers(keyFilter: int, n: nat, d: Received)
    requires keyFilter < 0
    ensures Decode(keyFilter, n, d) == ParseJava(d.data, d.length, n)
    ensures !(ParsePy(d.data[..d.length], n).Some? && ParsePy(d.data[..d.length], n).value.key == keyFilter)
  {
  }

  /** The cache keeps its keys and gains the stored names. */
  lemma {:induction false} StoreAllKeys(vals: map<string, U32>, names: seq<string>, slots: seq<U32>)
    requires |slots| == |names|
    ensures forall k :: k in StoreAll(vals, names, slots) <==> k in vals || k in names
    decreases |names|
  {
    if names != [] {
      var j := |names| - 1;
      StoreAllKeys(vals, names[..j], slots[..j]);
      assert names == names[..j] + [names[j]];
    }
  }

  /** Entries of names that are not stored keep their value. */
  lemma {:induction false} StoreAllOthers(vals: map<string, U32>, names: seq<string>, slots: seq<U32>, k: string)
    requires |slots| == |names|
    requires k in vals && k !in names
    ensures k in StoreAll(vals, names, slots) && StoreAll(vals, names, slots)[k] == vals[k]
    decreases |names|
  {
    if names != [] {
      var j := |names| - 1;
      assert k !in names[..j] by { assert forall x :: x in names[..j] ==> x in names; }
      StoreAllOthers(vals, names[..j], slots[..j], k);
    }
  }

  /** The last slot written under a name is the one the cache holds: slot i when no
      later name repeats names[i] (so every slot, when the names are distinct). */
  lemma {:induction false} StoreAllLastWriter(vals: map<string, U32>, names: seq<string>, slots: seq<U32>, i: nat)
    requires |slots| == |names|
    requires i < |names|
    requires forall j :: i < j < |names| ==> names[j] != names[i]
    ensures names[i] in StoreAll(vals, names, slots) && StoreAll(vals, names, slots)[names[i]] == slots[i]
    decreases |names|
  {
    var j := |names| - 1;
    if i < j {
      StoreAllLastWriter(vals, names[..j], slots[..j], i);
    }
  }

  /** Handling a datagram: a filtered or malformed one changes nothing; an accepted one
      stores every slot under its name and hands every registered listener, in order,
      the same snapshot, which is the cache after the update. */
  lemma ArriveEffect(keyFilter: int, names: seq<string>, st: State, d: Received)
    ensures Decode(keyFilter, |names|, d).None? ==> Step(keyFilter, names, st, Arrive(d)) == st
    ensures Decode(keyFilter, |names|, d).Some? ==>
              var slots := Decode(keyFilter, |names|, d).value;
              var st' := Step(keyFilter, names, st, Arrive(d));
              && st'.listeners == st.listeners && st'.running == st.running
              && (forall i :: 0 <= i < |names| && (forall j :: i < j < |names| ==> names[j] != names[i]) ==>
                    names[i] in st'.values && st'.values[names[i]] == slots[i])
              && (forall k :: k in st.values && k !in names ==> k in st'.values && st'.values[k] == st.values[k])
              && |st'.delivered| == |st.delivered| + |st.listeners|
              && st'.delivered[..|st.delivered|] == st.delivered
              && (forall i :: 0 <= i < |st.listeners| ==>
                    st'.delivered[|st.delivered| + i] == Delivery(st.listeners[i], st'.values))
  {
    if Decode(keyFilter, |names|, d).Some? {
      var slots := Decode(keyFilter, |names|, d).value;
      forall i | 0 <= i < |names| && (forall j :: i < j < |names| ==> names[j] != names[i])
        ensures names[i] in StoreAll(st.values, names, slots) && StoreAll(st.values, names, slots)[names[i]] == slots[i]
      {
        StoreAllLastWriter(st.values, names, slots, i);
      }
      forall k | k in st.values && k !in names
        ensures k in StoreAll(st.values, names, slots) && StoreAll(st.values, names, slots)[k] == st.values[k]
      {
        StoreAllOthers(st.values, names, slots, k);
      }
    }
  }

  /** Once the loop reads `running == false` nothing more is handled: events after a
      `stop()` have no effect on the run's result. (Listeners added or cleared after the
      stop still change the list; the finished loop no longer observes it.) */
  lemma {:induction false} StopEndsRun(keyFilter: int, names: seq<string>, st: State, pre: seq<Event>, rest: seq<Event>)
    ensures Run(keyFilter, names, st, pre + [StopRequested] + rest) == Run(keyFilter, names, st, pre + [StopRequested])
    decreases |pre|
  {
    var a := pre + [StopRequested] + rest;
    var b := pre + [StopRequested];
    if pre == [] {
      assert a[0] == StopRequested && b[0] == StopRequested;
      assert b[1..] == [];
    } else {
      assert a[0] == pre[0] && b[0] == pre[0];
      assert a[1..] == pre[1..] + [StopRequested] + rest;
      assert b[1..] == pre[1..] + [StopRequested];
      if st.running && !pre[0].ReceiveFailed? {
        StopEndsRun(keyFilter, names, Step(keyFilter, names, st, pre[0]), pre[1..], rest);
      }
    }
  }

  /** The cache's key set never changes once it holds every parameter name. */
  lemma {:induction false} RunKeepsKeys(keyFilter: int, names: seq<string>, st: State, events: seq<Event>)
    requires forall k :: k in names ==> k in st.values
    ensures forall k :: k in Run(keyFilter, names, st, events).values <==> k in st.values
    decreases |events|
  {
    if events != [] && st.running && !events[0].ReceiveFailed? {
      var st' := Step(keyFilter, names, st, events[0]);
      assert forall k :: k in st'.values <==> k in st.values by {
        if events[0].Arrive? && Decode(keyFilter, |names|, events[0].d).Some? {
          StoreAllKeys(st.values, names, Decode(keyFilter, |names|, events[0].d).value);
        }
      }
      RunKeepsKeys(keyFilter, names, st', events[1..]);
    }
  }

  /** Deliveries are only ever appended. */
  lemma {:induction false} RunExtendsDeliveries(keyFilter: int, names: seq<string>, st: State, events: seq<Event>)
    ensures |st.delivered| <= |Run(keyFilter, names, st, events).delivered|
    ensures Run(keyFilter, names, st, events).delivered[..|st.delivered|] == st.delivered
    decreases |events|
  {
    if events != [] && st.running && !events[0].ReceiveFailed? {
      var st' := Step(keyFilter, names, st, events[0]);
      RunExtendsDeliveries(keyFilter, names, st', events[1..]);
      assert st'.delivered[..|st.delivered|] == st.delivered;
    }
  }

  // ------------------------------------------------------------------
  // The DataStream object
  // ------------------------------------------------------------------

  class DataStream {
    const mode: Mode
    const port: int
    const multicastGroup: string
    const keyFilter: int
    const networkInterface: Option<M.Interface>
    const parameterInfos: seq<ParameterInfo>
    const numParams: nat
    const payloadSize: nat
    const expectedPktSize: nat
    const paramNames: seq<string>
    var values: map<string, U32>
    var listeners: seq<Listener>
    var running: bool
    var delivered: seq<Delivery>

    /** The derived sizes match the parameter list, and the cache holds exactly the
        parameter names. */
    ghost predicate Valid()
      reads this
    {
      && numParams == |parameterInfos|
      && paramNames == Names(parameterInfos)
      && payloadSize == PayloadSize(numParams)
      && expectedPktSize == ExpectedPacketSize(numParams)
      && (forall k :: k in values <==> k in paramNames)
    }

    /** The mutable state as a value. */
    function Current(): State
      reads this
    {
      State(values, listeners, running, delivered)
    }

    /** The full constructor: sizes derived from the list, names in list order, every
        name cached as 0.0 (bit pattern 0). */
    constructor (mode: Mode, port: int, multicastGroup: string, keyFilter: int,
                 parameterInfos: seq<ParameterInfo>, networkInterface: Option<M.Interface>)
      ensures Valid()
      ensures this.mode == mode && this.port == port && this.multicastGroup == multicastGroup
      ensures this.keyFilter == keyFilter && this.networkInterface == networkInterface
      ensures this.parameterInfos == parameterInfos
      ensures numParams == |parameterInfos| && payloadSize == 4 * |parameterInfos|
      ensures expectedPktSize == 16 + 4 * |parameterInfos| + 2
      ensures forall k :: k in values ==> values[k] == 0
      ensures listeners == [] && !running && delivered == []
    {
      this.mode := mode;
      this.port := port;
      this.multicastGroup := multicastGroup;
      this.keyFilter := keyFilter;
      this.networkInterface := networkInterface;
      this.parameterInfos := parameterInfos;
      var n := |parameterInfos|;
      numParams := n;
      payloadSize := n * 4;
      expectedPktSize := HEADER_SIZE + n * 4 + TRAILER_SIZE;
      var names: seq<string> := [];
      var vals: map<string, U32> := map[];
      var i := 0;
      while i < n
        invariant 0 <= i <= n
        invariant |names| == i
        invariant forall j :: 0 <= j < i ==> names[j] == parameterInfos[j].name
        invariant forall k :: k in vals <==> k in names
        invariant forall k :: k in vals ==> vals[k] == 0
      {
        names := names + [parameterInfos[i].name];
        vals := vals[parameterInfos[i].name := 0];
        i := i + 1;
      }
      assert names == Names(parameterInfos);
      paramNames := names;
      values := vals;
      listeners := [];
      running := false;
      delivered := [];
    }

    /** `getVariableNames`: the names in parameter-list order. */
    method GetVariableNames() returns (names: seq<string>)
      requires Valid()
      ensures |names| == |parameterInfos|
      ensures forall i :: 0 <= i < |names| ==> names[i] == parameterInfos[i].name
    {
      names := paramNames;
    }

    /** `getVariables`: the cache's key set, which is the set of parameter names. */
    method GetVariables() returns (keys: set<string>)
      requires Valid()
      ensures forall k :: k in keys <==> k in paramNames
    {
      keys := values.Keys;
    }

    method Start()
      modifies this
      ensures running
      ensures values == old(values) && listeners == old(listeners) && delivered == old(delivered)
    {
      running := true;
    }

    method Stop()
      modifies this
      ensures !running
      ensures values == old(values) && listeners == old(listeners) && delivered == old(delivered)
    {
      running := false;
    }

    method AddListener(l: Listener)
      modifies this
      ensures listeners == old(listeners) + [l]
      ensures values == old(values) && running == old(running) && delivered == old(delivered)
    {
      listeners := listeners + [l];
    }

    method ClearListeners()
      modifies this
      ensures listeners == []
      ensures values == old(values) && running == old(running) && delivered == old(delivered)
    {
      listeners := [];
    }

    /** `notifyListeners`: one copy of the cache, handed to each listener in order. */
    method NotifyListeners()
      modifies this
      ensures delivered == old(delivered) + Fanout(listeners, values)
      ensures values == old(values) && listeners == old(listeners) && running == old(running)
    {
      var snap := values;
      var i := 0;
      while i < |listeners|
        invariant 0 <= i <= |listeners|
        invariant values == snap && listeners == old(listeners) && running == old(running)
        invariant delivered == old(delivered) + Fanout(listeners[..i], snap)
      {
        assert Fanout(listeners[..i + 1], snap) == Fanout(listeners[..i], snap) + [Delivery(listeners[i], snap)];
        delivered := delivered + [Delivery(listeners[i], snap)];
        i := i + 1;
      }
      assert listeners[..i] == listeners;
    }

    /** The cache update `values.put(paramNames[i], parsed[i])` for every slot. */
    method StoreSlots(parsed: seq<U32>)
      modifies this
      requires Valid()
      requires |parsed| == numParams
      ensures Valid()
      ensures values == StoreAll(old(values), paramNames, parsed)
      ensures listeners == old(listeners) && running == old(running) && delivered == old(delivered)
    {
      var i := 0;
      while i < numParams
        invariant 0 <= i <= numParams
        invariant values == StoreAll(old(values), paramNames[..i], parsed[..i])
        invariant listeners == old(listeners) && running == old(running) && delivered == old(delivered)
      {
        assert paramNames[..i + 1][..i] == paramNames[..i] && parsed[..i + 1][..i] == parsed[..i];
        values := values[paramNames[i] := parsed[i]];
        i := i + 1;
      }
      assert paramNames[..i] == paramNames && parsed[..i] == parsed;
      StoreAllKeys(old(values), paramNames, parsed);
    }

    /** One pass of the receive loop for a datagram: filter, decode, store, notify.
        `accepted` says whether the cache was updated and listeners called. */
    method ReceiveOne(d: Received) returns (accepted: bool)
      modifies this
      requires Valid()
      ensures Valid()
      ensures accepted == Decode(keyFilter, numParams, d).Some?
      ensures Current() == Step(keyFilter, paramNames, old(Current()), Arrive(d))
    {
      if keyFilter >= 0 {
        var pktKey := ParseIenaKey(d.data, d.length);
        if pktKey != keyFilter {
          return false;
        }
      }
      var parsed := ParseIenaPacket(d.data, d.length, numParams);
      if parsed.None? {
        return false;
      }
      StoreSlots(parsed.value);
      NotifyListeners();
      accepted := true;
    }

    /** The `while (running)` loop of `listen()` over the events it observes. */
    method ReceiveLoop(events: seq<Event>)
      modifies this
      requires Valid()
      ensures Valid()
      ensures Current() == Run(keyFilter, paramNames, old(Current()), events)
    {
      var i := 0;
      while i < |events| && running
        invariant 0 <= i <= |events|
        invariant Valid()
        invariant Run(keyFilter, paramNames, old(Current()), events) == Run(keyFilter, paramNames, Current(), events[i..])
      {
        var e := events[i];
        assert events[i..][0] == e && events[i..][1..] == events[i + 1..];
        match e {
          case Arrive(d) =>
            var _ := ReceiveOne(d);
          case Timeout =>
          case StopRequested =>
            Stop();
          case ListenerAdded(l) =>
            AddListener(l);
          case ListenersCleared =>
            ClearListeners();
          case ReceiveFailed =>
            break;
        }
        i := i + 1;
      }
    }

    /** `listen()`: join the group when multicast (on the requested interface, or on
        every eligible one), run the receive loop, and finally leave every recorded
        membership. A group name that does not resolve or a join that throws skips the
        loop. `resolves`, `joinOk` and `leaveOk` stand for the operating system's answers;
        `ifs` is the interface enumeration. */
    method Listen(events: seq<Event>, ifs: seq<M.Interface>,
                  resolves: M.Group -> bool,
                  joinOk: (M.Group, Option<M.Interface>) -> bool,
                  leaveOk: (M.Group, Option<M.Interface>) -> bool)
      returns (joined: bool, leaves: seq<M.LeaveAttempt>)
      modifies this
      requires Valid()
      ensures Valid()
      ensures mode != Multicast ==> joined && leaves == []
      ensures mode == Multicast ==>
                var outcome := M.JoinGroupsSpec([multicastGroup], networkInterface, ifs, resolves, joinOk);
                && joined == outcome.ok
                && leaves == M.Leaves(outcome.joined, leaveOk)
      ensures Current() == if joined then Run(keyFilter, paramNames, old(Current()), events) else old(Current())
    {
      var log := new M.JoinLog();
      joined := true;
      if mode == Multicast {
        joined := log.JoinGroups([multicastGroup], networkInterface, ifs, resolves, joinOk);
      }
      ghost var recorded := log.Memberships();
      if joined {
        ReceiveLoop(events);
      }
      leaves := log.LeaveAll(mode == Multicast, leaveOk);
      assert mode == Multicast ==> leaves == M.Leaves(recorded, leaveOk);
    }
  }
}
