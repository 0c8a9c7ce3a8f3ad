/** The Python receiver `IenaMulticastReceiver`: one key is kept, every accepted packet
    appends a timestamp and one value per parameter to bounded deques (`maxlen` 10000,
    the oldest entry dropped on overflow) and counts the packet. The clock is a
    parameter: each arrival carries the `time.time()` value read for it. */
module PyReceiver {
  import opened Bytes
  import opened Wrappers
  import opened Codec

  /** The `maxlen` of every deque. */
  const MAXLEN: nat := 10000

  /** `collections.deque(maxlen=MAXLEN).append(x)`: append on the right, dropping from
      the left what exceeds the bound. */
  function Push<T>(q: seq<T>, x: T): (r: seq<T>)
    ensures |r| == if |q| + 1 <= MAXLEN then |q| + 1 else MAXLEN
    ensures r[|r| - 1] == x
    ensures r == (q + [x])[|q| + 1 - |r|..]
  {
    if |q| + 1 <= MAXLEN then q + [x] else (q + [x])[|q| + 1 - MAXLEN..]
  }

  /** A full deque loses exactly its oldest entry. */
  lemma PushDropsOldest<T>(q: seq<T>, x: T)
    requires |q| == MAXLEN
    ensures Push(q, x) == q[1..] + [x]
  {
    assert (q + [x])[1..] == q[1..] + [x];
  }

  /** A deque within its bound keeps everything. */
  lemma PushKeeps<T>(q: seq<T>, x: T)
    requires |q| < MAXLEN
    ensures Push(q, x)[..|q|] == q
  {
  }

  /** The series after `self.series[name].append(values[i])` for each i in order; the
      set of series never changes. */
  function AppendAll(series: map<string, seq<U32>>, names: seq<string>, vals: seq<U32>): (r: map<string, seq<U32>>)
    requires |vals| == |names|
    requires forall n :: n in names ==> n in series
    ensures forall n :: n in r <==> n in series
    decreases |names|
  {
    if names == [] then series
    else
      var k := |names| - 1;
      var s := AppendAll(series, names[..k], vals[..k]);
      s[names[k] := Push(s[names[k]], vals[k])]
  }

  /** One more name: its series gets its value appended. */
  lemma AppendAllStep(series: map<string, seq<U32>>, names: seq<string>, vals: seq<U32>, i: nat)
    requires |vals| == |names|
    requires forall n :: n in names ==> n in series
    requires i < |names|
    ensures forall n :: n in names[..i + 1] ==> n in series
    ensures names[i] in AppendAll(series, names[..i], vals[..i])
    ensures AppendAll(series, names[..i + 1], vals[..i + 1])
         == AppendAll(series, names[..i], vals[..i])[names[i] := Push(AppendAll(series, names[..i], vals[..i])[names[i]], vals[i])]
  {
    assert forall n :: n in names[..i + 1] ==> n in names;
    assert names[..i + 1][..i] == names[..i] && vals[..i + 1][..i] == vals[..i];
  }

  /** No name appears twice. */
  predicate Distinct(names: seq<string>) {
    forall i, j :: 0 <= i < j < |names| ==> names[i] != names[j]
  }

  /** Series of names not in the list are untouched. */
  lemma {:induction false} AppendAllOthers(series: map<string, seq<U32>>, names: seq<string>, vals: seq<U32>, n: string)
    requires |vals| == |names|
    requires forall n :: n in names ==> n in series
    requires n in series && n !in names
    ensures AppendAll(series, names, vals)[n] == series[n]
    decreases |names|
  {
    if names != [] {
      var k := |names| - 1;
      assert n !in names[..k] by { assert forall x :: x in names[..k] ==> x in names; }
      AppendAllOthers(series, names[..k], vals[..k], n);
    }
  }

  /** A name listed once gets exactly its own value appended. */
  lemma {:induction false} AppendAllOwn(series: map<string, seq<U32>>, names: seq<string>, vals: seq<U32>, i: nat)
    requires |vals| == |names|
    requires forall n :: n in names ==> n in series
    requires i < |names|
    requires forall j :: 0 <= j < |names| && j != i ==> names[j] != names[i]
    ensures AppendAll(series, names, vals)[names[i]] == Push(series[names[i]], vals[i])
    decreases |names|
  {
    var k := |names| - 1;
    var init := names[..k];
    assert forall j :: 0 <= j < k ==> init[j] == names[j];
    assert forall n :: n in init ==> n in names;
    if i == k {
      assert names[k] !in init;
      AppendAllOthers(series, init, vals[..k], names[k]);
    } else {
      AppendAllOwn(series, init, vals[..k], i);
    }
  }

  /** With distinct names, every series grows by one value, its own. */
  lemma AppendAllDistinct(series: map<string, seq<U32>>, names: seq<string>, vals: seq<U32>)
    requires |vals| == |names|
    requires forall n :: n in names ==> n in series
    requires Distinct(names)
    ensures forall i :: 0 <= i < |names| ==>
              AppendAll(series, names, vals)[names[i]] == Push(series[names[i]], vals[i])
  {
    forall i | 0 <= i < |names|
      ensures AppendAll(series, names, vals)[names[i]] == Push(series[names[i]], vals[i])
    {
      AppendAllOwn(series, names, vals, i);
    }
  }

  /** Appending one timestamp and one value per distinct name keeps every series as long
      as the timestamp deque. */
  lemma AppendKeepsAligned(series: map<string, seq<U32>>, ts: seq<real>, names: seq<string>, vals: seq<U32>, now: real)
    requires |vals| == |names|
    requires forall n :: n in series <==> n in names
    requires Distinct(names)
    requires forall n :: n in series ==> |series[n]| == |ts|
    ensures forall n :: n in AppendAll(series, names, vals) ==> |AppendAll(series, names, vals)[n]| == |Push(ts, now)|
  {
    AppendAllDistinct(series, names, vals);
    forall n | n in AppendAll(series, names, vals) ensures |AppendAll(series, names, vals)[n]| == |Push(ts, now)| {
      var i :| 0 <= i < |names| && names[i] == n;
    }
  }

  /** What `_listen` observes between two checks of `self._running`. */
  datatype PyEvent =
    | PyArrive(data: seq<Byte>, at: real) // `recvfrom` returned; `at` is `time.time()`
    | PyTimeout                           // the one-second timeout expired
    | PyStopRequested                     // another thread called `stop()`

  /** The accept test of `_listen`: the packet parses and carries the chosen key. */
  predicate Accepts(keyFilter: int, n: nat, data: seq<Byte>) {
    ParsePy(data, n).Some? && ParsePy(data, n).value.key == keyFilter
  }

  /** The events the loop handles: those before the first `stop()`. */
  function BeforeStop(events: seq<PyEvent>): (r: seq<PyEvent>)
    ensures |r| <= |events|
    ensures r == events[..|r|]
    ensures forall e :: e in r ==> !e.PyStopRequested?
  {
    if events == [] || events[0].PyStopRequested? then []
    else [events[0]] + BeforeStop(events[1..])
  }

  /** How many of `events` are accepted arrivals. */
  function CountAccepted(keyFilter: int, n: nat, events: seq<PyEvent>): nat
  {
    if events == [] then 0
    else CountAccepted(keyFilter, n, events[..|events| - 1])
         + Gain(keyFilter, n, events[|events| - 1])
  }

  /** 1 for an accepted arrival, 0 for anything else. */
  function Gain(keyFilter: int, n: nat, e: PyEvent): nat
  {
    if e.PyArrive? && Accepts(keyFilter, n, e.data) then 1 else 0
  }

  lemma CountStep(keyFilter: int, n: nat, events: seq<PyEvent>, i: nat)
    requires i < |events|
    ensures CountAccepted(keyFilter, n, events[..i + 1]) ==
              CountAccepted(keyFilter, n, events[..i]) + Gain(keyFilter, n, events[i])
  {
    assert events[..i + 1][..i] == events[..i];
  }

  function Min(a: nat, b: nat): nat { if a <= b then a else b }

  /** What a deque bounded by MAXLEN holds once all of `q` has been appended to it: the
      last MAXLEN entries. */
  function Window<T>(q: seq<T>): (r: seq<T>)
    ensures |r| == Min(|q|, MAXLEN)
    ensures r == q[|q| - |r|..]
  {
    if |q| <= MAXLEN then q else q[|q| - MAXLEN..]
  }

  /** Appending to a window is the window of the longer history. */
  lemma PushWindow<T>(q: seq<T>, x: T)
    ensures Push(Window(q), x) == Window(q + [x])
  {
    var w, p := Window(q), q + [x];
    var r, v := Push(w, x), Window(p);
    assert |r| == |v|;
    forall k | 0 <= k < |r| ensures r[k] == v[k] {
      assert r[k] == (w + [x])[|w| + 1 - |r| + k];
      assert v[k] == p[|p| - |v| + k];
    }
  }

  /** A window extended by at most one entry is the window of the extended history. */
  lemma WindowStep<T>(start: seq<T>, hist: seq<T>, extra: seq<T>, cur: seq<T>, next: seq<T>)
    requires cur == Window(start + hist)
    requires |extra| <= 1
    requires next == if extra == [] then cur else Push(cur, extra[0])
    ensures next == Window(start + (hist + extra))
  {
    if extra == [] {
      assert hist + extra == hist;
    } else {
      PushWindow(start + hist, extra[0]);
      assert start + hist + [extra[0]] == start + (hist + extra);
    }
  }

  /** The receiver's data at one moment: the timestamp deque, the series and the count. */
  datatype PyState = PyState(timestamps: seq<real>, series: map<string, seq<U32>>, packetCount: nat)

  /** The effect of one handled event: an accepted arrival pushes its time, appends its
      values and counts itself; a timeout or a rejected datagram leaves the state alone. */
  function PyStep(keyFilter: int, names: seq<string>, st: PyState, e: PyEvent): (r: PyState)
    requires forall nm :: nm in names ==> nm in st.series
    ensures forall nm :: nm in r.series <==> nm in st.series
  {
    if e.PyArrive? && Accepts(keyFilter, |names|, e.data) then
      PyState(Push(st.timestamps, e.at),
              AppendAll(st.series, names, ParsePy(e.data, |names|).value.values),
              st.packetCount + 1)
    else st
  }

  /** One step adds its gain to the count and pushes at most one timestamp. */
  lemma PyStepSizes(keyFilter: int, names: seq<string>, st: PyState, e: PyEvent)
    requires forall nm :: nm in names ==> nm in st.series
    requires |st.timestamps| <= MAXLEN
    ensures PyStep(keyFilter, names, st, e).packetCount == st.packetCount + Gain(keyFilter, |names|, e)
    ensures |PyStep(keyFilter, names, st, e).timestamps| == Min(|st.timestamps| + Gain(keyFilter, |names|, e), MAXLEN)
  {
  }

  /** The state after handling `events` in order. */
  function PyRun(keyFilter: int, names: seq<string>, st: PyState, events: seq<PyEvent>): (r: PyState)
    requires forall nm :: nm in names ==> nm in st.series
    ensures forall nm :: nm in r.series <==> nm in st.series
    decreases |events|
  {
    if events == [] then st
    else PyStep(keyFilter, names, PyRun(keyFilter, names, st, events[..|events| - 1]), events[|events| - 1])
  }

  lemma PyRunStep(keyFilter: int, names: seq<string>, st: PyState, events: seq<PyEvent>, i: nat)
    requires forall nm :: nm in names ==> nm in st.series
    requires i < |events|
    ensures PyRun(keyFilter, names, st, events[..i + 1])
         == PyStep(keyFilter, names, PyRun(keyFilter, names, st, events[..i]), events[i])
  {
    assert events[..i + 1][..i] == events[..i];
  }

  /** The times of the accepted arrivals, in order. */
  function AcceptedTimes(keyFilter: int, n: nat, events: seq<PyEvent>): (r: seq<real>)
    ensures |r| == CountAccepted(keyFilter, n, events)
  {
    if events == [] then []
    else
      var e := events[|events| - 1];
      AcceptedTimes(keyFilter, n, events[..|events| - 1]) + (if Gain(keyFilter, n, e) == 1 then [e.at] else [])
  }

  /** Slot `j` of every accepted arrival, in order. */
  function AcceptedSlot(keyFilter: int, n: nat, events: seq<PyEvent>, j: nat): (r: seq<U32>)
    requires j < n
    ensures |r| == CountAccepted(keyFilter, n, events)
  {
    if events == [] then []
    else
      var e := events[|events| - 1];
      AcceptedSlot(keyFilter, n, events[..|events| - 1], j)
        + (if Gain(keyFilter, n, e) == 1 then [ParsePy(e.data, n).value.values[j]] else [])
  }

  /** A run counts exactly the accepted arrivals. */
  lemma {:induction false} PyRunCount(keyFilter: int, names: seq<string>, st: PyState, events: seq<PyEvent>)
    requires forall nm :: nm in names ==> nm in st.series
    ensures PyRun(keyFilter, names, st, events).packetCount == st.packetCount + CountAccepted(keyFilter, |names|, events)
    decreases |events|
  {
    if events != [] {
      PyRunCount(keyFilter, names, st, events[..|events| - 1]);
    }
  }

  /** After a run the timestamp deque holds the last MAXLEN entries of its old contents
      followed by the times of the accepted arrivals. */
  lemma {:induction false} PyRunTimestamps(keyFilter: int, names: seq<string>, st: PyState, events: seq<PyEvent>)
    requires forall nm :: nm in names ==> nm in st.series
    requires |st.timestamps| <= MAXLEN
    ensures PyRun(keyFilter, names, st, events).timestamps
         == Window(st.timestamps + AcceptedTimes(keyFilter, |names|, events))
    decreases |events|
  {
    var n := |names|;
    if events == [] {
      assert st.timestamps + [] == st.timestamps;
    } else {
      var k := |events| - 1;
      var init, e := events[..k], events[k];
      PyRunTimestamps(keyFilter, names, st, init);
      var before := PyRun(keyFilter, names, st, init);
      var extra := if Gain(keyFilter, n, e) == 1 then [e.at] else [];
      assert AcceptedTimes(keyFilter, n, events) == AcceptedTimes(keyFilter, n, init) + extra;
      WindowStep(st.timestamps, AcceptedTimes(keyFilter, n, init), extra,
                 before.timestamps, PyStep(keyFilter, names, before, e).timestamps);
    }
  }

  /** The count and the timestamp deque's length after a run. */
  lemma PyRunSizes(keyFilter: int, names: seq<string>, st: PyState, events: seq<PyEvent>)
    requires forall nm :: nm in names ==> nm in st.series
    requires |st.timestamps| <= MAXLEN
    ensures PyRun(keyFilter, names, st, events).packetCount == st.packetCount + CountAccepted(keyFilter, |names|, events)
    ensures |PyRun(keyFilter, names, st, events).timestamps| == Min(|st.timestamps| + CountAccepted(keyFilter, |names|, events), MAXLEN)
  {
    PyRunCount(keyFilter, names, st, events);
    PyRunTimestamps(keyFilter, names, st, events);
  }

  /** With distinct names, one event appends slot `j` of an accepted arrival to series
      `names[j]` and leaves it alone otherwise. */
  lemma PyStepSeries(keyFilter: int, names: seq<string>, st: PyState, e: PyEvent, j: nat)
    requires forall nm :: nm in names ==> nm in st.series
    requires Distinct(names) && j < |names|
    ensures Gain(keyFilter, |names|, e) == 1 ==>
              PyStep(keyFilter, names, st, e).series[names[j]]
              == Push(st.series[names[j]], ParsePy(e.data, |names|).value.values[j])
    ensures Gain(keyFilter, |names|, e) == 0 ==>
              PyStep(keyFilter, names, st, e).series[names[j]] == st.series[names[j]]
  {
    if Gain(keyFilter, |names|, e) == 1 {
      AppendAllOwn(st.series, names, ParsePy(e.data, |names|).value.values, j);
    }
  }

  /** With distinct names, after a run series `names[j]` holds the last MAXLEN entries of
      its old contents followed by slot `j` of every accepted arrival. */
  lemma {:induction false} PyRunSeries(keyFilter: int, names: seq<string>, st: PyState, events: seq<PyEvent>, j: nat)
    requires forall nm :: nm in names ==> nm in st.series
    requires Distinct(names) && j < |names|
    requires |st.series[names[j]]| <= MAXLEN
    ensures PyRun(keyFilter, names, st, events).series[names[j]]
         == Window(st.series[names[j]] + AcceptedSlot(keyFilter, |names|, events, j))
    decreases |events|
  {
    var n := |names|;
    if events == [] {
      assert st.series[names[j]] + [] == st.series[names[j]];
    } else {
      var k := |events| - 1;
      var init, e := events[..k], events[k];
      PyRunSeries(keyFilter, names, st, init, j);
      var before := PyRun(keyFilter, names, st, init);
      PyStepSeries(keyFilter, names, before, e, j);
      var extra := if Gain(keyFilter, n, e) == 1 then [ParsePy(e.data, n).value.values[j]] else [];
      assert AcceptedSlot(keyFilter, n, events, j) == AcceptedSlot(keyFilter, n, init, j) + extra;
      WindowStep(st.series[names[j]], AcceptedSlot(keyFilter, n, init, j), extra,
                 before.series[names[j]], PyStep(keyFilter, names, before, e).series[names[j]]);
    }
  }

  class IenaMulticastReceiver {
    const groups: seq<string>
    const port: int
    const keyFilter: int
    const paramNames: seq<string>
    const numParams: nat
    var timestamps: seq<real>
    var series: map<string, seq<U32>>
    var packetCount: nat
    var running: bool

    /** Every parameter has a series, no other key does, and no deque exceeds its bound. */
    ghost predicate Valid()
      reads this
    {
      && numParams == |paramNames|
      && (forall n :: n in series <==> n in paramNames)
      && |timestamps| <= MAXLEN
      && (forall n :: n in series ==> |series[n]| <= MAXLEN)
    }

    /** The data `_listen` accumulates. */
    function State(): PyState
      reads this
    {
      PyState(timestamps, series, packetCount)
    }

    /** Every series holds one value per timestamp. */
    ghost predicate Aligned()
      reads this
    {
      forall n :: n in series ==> |series[n]| == |timestamps|
    }

    constructor (groups: seq<string>, port: int, keyFilter: int, paramNames: seq<string>)
      ensures Valid() && Aligned()
      ensures this.groups == groups && this.port == port && this.keyFilter == keyFilter
      ensures this.paramNames == paramNames && numParams == |paramNames|
      ensures timestamps == [] && packetCount == 0 && running
      ensures forall n :: n in series ==> series[n] == []
    {
      this.groups := groups;
      this.port := port;
      this.keyFilter := keyFilter;
      this.paramNames := paramNames;
      numParams := |paramNames|;
      timestamps := [];
      series := map n | n in paramNames :: [];
      packetCount := 0;
      running := true;
    }

    method Stop()
      modifies this
      ensures !running
      ensures timestamps == old(timestamps) && series == old(series) && packetCount == old(packetCount)
    {
      running := false;
    }

    /** The loop `for i, name in enumerate(self.param_names): self.series[name].append(...)`. */
    method AppendValues(vals: seq<U32>)
      modifies this
      requires Valid()
      requires |vals| == numParams
      ensures Valid()
      ensures series == AppendAll(old(series), paramNames, vals)
      ensures timestamps == old(timestamps) && packetCount == old(packetCount) && running == old(running)
    {
      var s := AppendEach(series, paramNames, vals);
      AppendAllBounded(series, paramNames, vals);
      series := s;
    }

    /** The loop itself, over a copy of the series map. */
    static method AppendEach(s0: map<string, seq<U32>>, names: seq<string>, vals: seq<U32>)
      returns (s: map<string, seq<U32>>)
      requires |vals| == |names|
      requires forall n :: n in names ==> n in s0
      ensures s == AppendAll(s0, names, vals)
    {
      s := s0;
      var i := 0;
      while i < |names|
        invariant 0 <= i <= |names|
        invariant forall n :: n in names[..i] ==> n in s0
        invariant s == AppendAll(s0, names[..i], vals[..i])
      {
        AppendAllStep(s0, names, vals, i);
        var name := names[i];
        s := s[name := Push(s[name], vals[i])];
        i := i + 1;
      }
      assert names[..i] == names && vals[..i] == vals;
    }

    /** One pass of `_listen` for a datagram received at time `now`: a packet that does
        not parse or carries another key changes nothing; an accepted one appends one
        timestamp, one value per series, and counts itself. */
    method ReceiveOne(data: seq<Byte>, now: real) returns (accepted: bool)
      modifies this
      requires Valid()
      ensures Valid()
      ensures accepted == Accepts(keyFilter, numParams, data)
      ensures !accepted ==> timestamps == old(timestamps) && series == old(series) && packetCount == old(packetCount)
      ensures accepted ==>
                && timestamps == Push(old(timestamps), now)
                && series == AppendAll(old(series), paramNames, ParsePy(data, numParams).value.values)
                && packetCount == old(packetCount) + 1
      ensures running == old(running)
      ensures Distinct(paramNames) && old(Aligned()) ==> Aligned()
    {
      var pkt := ParsePy(data, numParams);
      if pkt.None? || pkt.value.key != keyFilter {
        return false;
      }
      timestamps := Push(timestamps, now);
      AppendValues(pkt.value.values);
      packetCount := packetCount + 1;
      accepted := true;
      if Distinct(paramNames) && old(Aligned()) {
        AppendKeepsAligned(old(series), old(timestamps), paramNames, pkt.value.values, now);
      }
    }

    /** One event seen while running. */
    method Handle(e: PyEvent)
      modifies this
      requires Valid()
      ensures Valid()
      ensures running == (old(running) && !e.PyStopRequested?)
      ensures e.PyStopRequested? ==> State() == old(State())
      ensures !e.PyStopRequested? ==> State() == PyStep(keyFilter, paramNames, old(State()), e)
      ensures !e.PyStopRequested? ==>
                && packetCount == old(packetCount) + Gain(keyFilter, numParams, e)
                && |timestamps| == Min(|old(timestamps)| + Gain(keyFilter, numParams, e), MAXLEN)
      ensures Distinct(paramNames) && old(Aligned()) ==> Aligned()
    {
      ghost var st := State();
      assert forall nm :: nm in paramNames ==> nm in st.series;
      if e.PyStopRequested? {
        Stop();
        return;
      }
      PyStepSizes(keyFilter, paramNames, st, e);
      if e.PyArrive? {
        var _ := ReceiveOne(e.data, e.at);
        assert State() == PyStep(keyFilter, paramNames, st, e);
      }
    }

    /** `_listen`'s loop: arrivals are handled until `stop()` is seen. The data becomes
        `PyRun` over the events before the stop; the receiver is still running exactly
        when no stop came. */
    method Listen(events: seq<PyEvent>)
      modifies this
      requires Valid()
      ensures Valid()
      ensures running == (old(running) && PyStopRequested !in events)
      ensures !old(running) ==> State() == old(State())
      ensures old(running) ==> State() == PyRun(keyFilter, paramNames, old(State()), BeforeStop(events))
      ensures old(running) ==>
                var accepted := CountAccepted(keyFilter, numParams, BeforeStop(events));
                && packetCount == old(packetCount) + accepted
                && |timestamps| == Min(|old(timestamps)| + accepted, MAXLEN)
      ensures Distinct(paramNames) && old(Aligned()) ==> Aligned()
    {
      if !running {
        return;
      }
      HandleUntilStop(events);
      StopSeen(events);
      PyRunSizes(keyFilter, paramNames, old(State()), BeforeStop(events));
    }

    /** The `while self._running` loop itself, entered while running: every event before
        the first stop is handled, and the stop, if one comes, ends the loop. */
    method HandleUntilStop(events: seq<PyEvent>)
      modifies this
      requires Valid() && running
      ensures Valid()
      ensures State() == PyRun(keyFilter, paramNames, old(State()), BeforeStop(events))
      ensures running == (|BeforeStop(events)| == |events|)
      ensures Distinct(paramNames) && old(Aligned()) ==> Aligned()
    {
      var handled := BeforeStop(events);
      BeforeStopEnds(events);
      ghost var st0 := State();
      ghost var keepAligned := Distinct(paramNames) && Aligned();
      assert forall nm :: nm in paramNames ==> nm in st0.series;
      var i := 0;
      while i < |events| && running
        invariant 0 <= i <= |events|
        invariant Valid()
        invariant running ==> i <= |handled|
        invariant !running ==> i == |handled| + 1
        invariant running ==> State() == PyRun(keyFilter, paramNames, st0, handled[..i])
        invariant !running ==> State() == PyRun(keyFilter, paramNames, st0, handled)
        invariant keepAligned ==> Aligned()
      {
        var e := events[i];
        if i < |handled| {
          assert e == handled[i];
          PyRunStep(keyFilter, paramNames, st0, handled, i);
        } else {
          assert handled[..i] == handled;
        }
        Handle(e);
        i := i + 1;
      }
      if running {
        assert handled[..i] == handled;
      }
    }
  }

  lemma {:induction false} AppendAllBounded(series: map<string, seq<U32>>, names: seq<string>, vals: seq<U32>)
    requires |vals| == |names|
    requires forall n :: n in names ==> n in series
    requires forall n :: n in series ==> |series[n]| <= MAXLEN
    ensures forall n :: n in AppendAll(series, names, vals) ==> |AppendAll(series, names, vals)[n]| <= MAXLEN
    decreases |names|
  {
    if names != [] {
      var k := |names| - 1;
      AppendAllBounded(series, names[..k], vals[..k]);
    }
  }

  /** A stop is among the events exactly when the handled prefix is not all of them. */
  lemma StopSeen(events: seq<PyEvent>)
    ensures PyStopRequested in events <==> |BeforeStop(events)| < |events|
  {
    BeforeStopEnds(events);
    var b := BeforeStop(events);
    if |b| == |events| {
      assert b == events;
    }
  }

  /** The handled prefix ends at the first stop: the event right after it, if any, is
      a stop request. */
  lemma {:induction false} BeforeStopEnds(events: seq<PyEvent>)
    ensures |BeforeStop(events)| < |events| ==> events[|BeforeStop(events)|].PyStopRequested?
  {
    if events != [] && !events[0].PyStopRequested? {
      BeforeStopEnds(events[1..]);
    }
  }
}
