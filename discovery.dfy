/** Stream discovery: datagrams are counted per (key, source address) identity and the
    identities are reported sorted by key. Java (`discoverStreams`) counts every datagram
    of at least two bytes, keeps identities in first-seen order (its `LinkedHashMap`)
    and sorts stably; Python (`discover_streams`) counts only packets that parse. The
    listening deadline is replaced by the finite sequence of datagrams received before
    it; the packet rate is not modelled. */
module Discovery {
  import opened Bytes
  import opened Wrappers
  import opened Codec
  import opened StableSort
  import R = Receiver
  import M = Multicast

  /** A stream identity: Java's `key + "|" + srcIp` map key (the decimal key holds no
      `|`, so the pair determines the string and back), Python's `(key, src_ip)`. */
  datatype StreamId = StreamId(key: U16, source: string)

  /** `StreamInfo` without the rate. */
  datatype StreamInfo = StreamInfo(key: U16, sourceIp: string, packetCount: nat)

  /** The identity Java counts a datagram under, or None when `parseIenaKey` gives -1. */
  function JavaId(d: R.Received): Option<StreamId>
  {
    var k := ParseIenaKey(d.data, d.length);
    if k < 0 then None else Some(StreamId(k, d.source))
  }

  /** The identities of the counted datagrams, in arrival order. */
  function Ids(ds: seq<R.Received>): (ids: seq<StreamId>)
    ensures |ids| <= |ds|
  {
    if ds == [] then []
    else
      var last := ds[|ds| - 1];
      Ids(ds[..|ds| - 1]) + (match JavaId(last) case None => [] case Some(id) => [id])
  }

  /** How often `id` occurs in `ids`. */
  function Occurrences(ids: seq<StreamId>, id: StreamId): nat
  {
    if ids == [] then 0
    else Occurrences(ids[..|ids| - 1], id) + (if ids[|ids| - 1] == id then 1 else 0)
  }

  /** The identities of `ids` in order of first appearance, each once. */
  function FirstSeen(ids: seq<StreamId>): seq<StreamId>
  {
    if ids == [] then []
    else
      var prev := FirstSeen(ids[..|ids| - 1]);
      var last := ids[|ids| - 1];
      if last in prev then prev else prev + [last]
  }

  /** The results before sorting: one entry per identity, in first-seen order. */
  function Tally(ids: seq<StreamId>): seq<StreamInfo>
  {
    var fs := FirstSeen(ids);
    seq(|fs|, i requires 0 <= i < |fs| => StreamInfo(fs[i].key, fs[i].source, Occurrences(ids, fs[i])))
  }

  function InfoKey(s: StreamInfo): int { s.key }

  /** What `discoverStreams` returns for the datagrams `ds`. */
  function Results(ds: seq<R.Received>): seq<StreamInfo>
  {
    SortBy(Tally(Ids(ds)), InfoKey)
  }

  /** Reference count: the datagrams of at least two bytes whose first two bytes, read
      big-endian, are `id.key` and whose sender is `id.source`. */
  function Matching(ds: seq<R.Received>, id: StreamId): nat
  {
    if ds == [] then 0
    else
      var d := ds[|ds| - 1];
      Matching(ds[..|ds| - 1], id)
      + (if d.length >= 2 && BE16(d.data, 0) == id.key && d.source == id.source then 1 else 0)
  }

  /** No identity twice. */
  predicate Unique(ids: seq<StreamId>) {
    forall i, j :: 0 <= i < j < |ids| ==> ids[i] != ids[j]
  }

  // ------------------------------------------------------------------
  // Counting
  // ------------------------------------------------------------------

  lemma {:induction false} OccurrencesMatching(ds: seq<R.Received>, id: StreamId)
    ensures Occurrences(Ids(ds), id) == Matching(ds, id)
  {
    if ds != [] {
      var init := ds[..|ds| - 1];
      var last := ds[|ds| - 1];
      OccurrencesMatching(init, id);
      var extra := match JavaId(last) case None => [] case Some(x) => [x];
      OccurrencesAppend(Ids(init), extra, id);
    }
  }

  lemma {:induction false} OccurrencesAppend(a: seq<StreamId>, b: seq<StreamId>, id: StreamId)
    requires |b| <= 1
    ensures Occurrences(a + b, id) == Occurrences(a, id) + (if b != [] && b[0] == id then 1 else 0)
  {
    if b != [] {
      assert (a + b)[..|a + b| - 1] == a;
    } else {
      assert a + b == a;
    }
  }

  lemma {:induction false} OccurrencesPositive(ids: seq<StreamId>, id: StreamId)
    ensures Occurrences(ids, id) > 0 <==> id in ids
  {
    if ids != [] {
      var init := ids[..|ids| - 1];
      OccurrencesPositive(init, id);
      assert ids == init + [ids[|ids| - 1]];
    }
  }

  /** An identity is reported exactly when it occurs, and only once. */
  lemma {:induction false} FirstSeenMembers(ids: seq<StreamId>)
    ensures forall id :: id in FirstSeen(ids) <==> id in ids
    ensures Unique(FirstSeen(ids))
  {
    if ids != [] {
      var init := ids[..|ids| - 1];
      FirstSeenMembers(init);
      assert ids == init + [ids[|ids| - 1]];
    }
  }

  lemma MultisetAtMostOnce(s: seq<StreamInfo>, x: StreamInfo)
    requires forall i, j :: 0 <= i < j < |s| ==> s[i] != s[j]
    ensures multiset(s)[x] <= 1
  {
    if s != [] {
      var init := s[..|s| - 1];
      MultisetAtMostOnce(init, x);
      assert s == init + [s[|s| - 1]];
      if s[|s| - 1] == x {
        assert x !in init by {
          forall i | 0 <= i < |init| ensures init[i] != x {
            assert init[i] == s[i];
          }
        }
      }
    }
  }

  lemma MultisetTwice(s: seq<StreamInfo>, i: nat, j: nat)
    requires i < j < |s| && s[i] == s[j]
    ensures multiset(s)[s[i]] >= 2
  {
    assert s == s[..j] + [s[j]] + s[j + 1..];
    assert s[i] in s[..j];
  }

  /** The Tally lists each identity once, with its number of occurrences. */
  lemma TallyFacts(ids: seq<StreamId>)
    ensures forall i, j :: 0 <= i < j < |Tally(ids)| ==>
              StreamId(Tally(ids)[i].key, Tally(ids)[i].sourceIp) != StreamId(Tally(ids)[j].key, Tally(ids)[j].sourceIp)
    ensures forall t :: t in Tally(ids) ==> t.packetCount == Occurrences(ids, StreamId(t.key, t.sourceIp))
    ensures forall id :: id in ids <==> exists t :: t in Tally(ids) && StreamId(t.key, t.sourceIp) == id
  {
    FirstSeenMembers(ids);
    var fs := FirstSeen(ids);
    var tl := Tally(ids);
    assert forall i :: 0 <= i < |tl| ==> StreamId(tl[i].key, tl[i].sourceIp) == fs[i];
    forall id | id in ids ensures exists t :: t in tl && StreamId(t.key, t.sourceIp) == id {
      var i :| 0 <= i < |fs| && fs[i] == id;
      assert tl[i] in tl;
    }
  }

  /** Sorting keeps the entries: an entry is in the results exactly when it is in the
      first-seen tally. */
  lemma ResultsMembers(ds: seq<R.Received>)
    ensures forall r :: r in Results(ds) <==> r in Tally(Ids(ds))
  {
    var rs := Results(ds);
    var tl := Tally(Ids(ds));
    forall r ensures r in rs <==> r in tl {
      assert r in rs <==> r in multiset(rs);
      assert r in tl <==> r in multiset(tl);
    }
  }

  /** Every counted identity is reported, with the number of datagrams of at least two
      bytes carrying it, and nothing else is reported. */
  lemma ResultsCounts(ds: seq<R.Received>)
    ensures forall r :: r in Results(ds) ==> r.packetCount == Matching(ds, StreamId(r.key, r.sourceIp)) && r.packetCount >= 1
    ensures forall id :: Matching(ds, id) > 0 <==> exists r :: r in Results(ds) && StreamId(r.key, r.sourceIp) == id
  {
    var ids := Ids(ds);
    var rs := Results(ds);
    TallyFacts(ids);
    ResultsMembers(ds);
    forall r | r in rs ensures r.packetCount == Matching(ds, StreamId(r.key, r.sourceIp)) && r.packetCount >= 1 {
      var id := StreamId(r.key, r.sourceIp);
      OccurrencesMatching(ds, id);
      OccurrencesPositive(ids, id);
    }
    forall id ensures Matching(ds, id) > 0 <==> exists r :: r in rs && StreamId(r.key, r.sourceIp) == id {
      OccurrencesMatching(ds, id);
      OccurrencesPositive(ids, id);
    }
  }

  /** Each identity is reported once. */
  lemma ResultsUnique(ds: seq<R.Received>)
    ensures forall i, j :: 0 <= i < j < |Results(ds)| ==>
              StreamId(Results(ds)[i].key, Results(ds)[i].sourceIp) != StreamId(Results(ds)[j].key, Results(ds)[j].sourceIp)
  {
    TallyFacts(Ids(ds));
    UniqueIdsPermuted(Tally(Ids(ds)), Results(ds));
  }

  /** A permutation of entries with pairwise distinct identities has pairwise distinct
      identities. */
  lemma UniqueIdsPermuted(tl: seq<StreamInfo>, rs: seq<StreamInfo>)
    requires multiset(rs) == multiset(tl)
    requires forall i, j :: 0 <= i < j < |tl| ==>
               StreamId(tl[i].key, tl[i].sourceIp) != StreamId(tl[j].key, tl[j].sourceIp)
    ensures forall i, j :: 0 <= i < j < |rs| ==>
              StreamId(rs[i].key, rs[i].sourceIp) != StreamId(rs[j].key, rs[j].sourceIp)
  {
    forall i, j | 0 <= i < j < |rs|
      ensures StreamId(rs[i].key, rs[i].sourceIp) != StreamId(rs[j].key, rs[j].sourceIp)
    {
      if StreamId(rs[i].key, rs[i].sourceIp) == StreamId(rs[j].key, rs[j].sourceIp) {
        assert rs[i] in multiset(tl) && rs[j] in multiset(tl);
        var a :| 0 <= a < |tl| && tl[a] == rs[i];
        var b :| 0 <= b < |tl| && tl[b] == rs[j];
        assert a == b;
        assert forall x, y :: 0 <= x < y < |tl| ==> tl[x] != tl[y];
        MultisetTwice(rs, i, j);
        MultisetAtMostOnce(tl, rs[i]);
        assert false;
      }
    }
  }

  /** The results are sorted by key, and entries with equal keys keep first-seen order. */
  lemma ResultsOrdered(ds: seq<R.Received>)
    ensures SortedBy(Results(ds), InfoKey)
    ensures forall k :: WithKey(Results(ds), InfoKey, k) == WithKey(Tally(Ids(ds)), InfoKey, k)
  {
    forall k ensures WithKey(Results(ds), InfoKey, k) == WithKey(Tally(Ids(ds)), InfoKey, k) {
      SortByStable(Tally(Ids(ds)), InfoKey, k);
    }
  }

  /** One more datagram: its identity, if it has one, is appended. */
  lemma IdsStep(ds: seq<R.Received>, i: nat)
    requires i < |ds|
    ensures Ids(ds[..i + 1]) == Ids(ds[..i]) + (match JavaId(ds[i]) case None => [] case Some(id) => [id])
  {
    assert ds[..i + 1][..i] == ds[..i];
  }

  lemma FirstSeenStep(ids: seq<StreamId>, x: StreamId)
    ensures FirstSeen(ids + [x]) == if x in FirstSeen(ids) then FirstSeen(ids) else FirstSeen(ids) + [x]
  {
    assert (ids + [x])[..|ids|] == ids;
  }

  /** One counted datagram keeps the counting loop's invariant: `computeIfAbsent` adds
      a new identity at the end with count 0, then the count is incremented. */
  lemma CountOne(before: seq<StreamId>, id: StreamId, order: seq<StreamId>, counts: map<StreamId, nat>,
                 order': seq<StreamId>, counts': map<StreamId, nat>)
    requires order == FirstSeen(before)
    requires forall x :: x in counts <==> x in order
    requires forall x :: x in counts ==> counts[x] == Occurrences(before, x)
    requires order' == if id in counts then order else order + [id]
    requires counts' == counts[id := (if id in counts then counts[id] else 0) + 1]
    ensures order' == FirstSeen(before + [id])
    ensures forall x :: x in counts' <==> x in order'
    ensures forall x :: x in counts' ==> counts'[x] == Occurrences(before + [id], x)
  {
    FirstSeenStep(before, id);
    if id !in counts {
      FirstSeenMembers(before);
      OccurrencesPositive(before, id);
      assert Occurrences(before, id) == 0;
      forall x ensures x in counts' <==> x in order' {
        assert x in order + [id] <==> x in order || x == id;
      }
    }
    forall x | x in counts' ensures counts'[x] == Occurrences(before + [id], x) {
      OccurrencesAppend(before, [id], x);
    }
  }

  /** The counting loop's invariant after the identities `ids`: `counts` holds each of
      them with its number of occurrences, and `order` is the map's insertion order. */
  ghost predicate Counted(ids: seq<StreamId>, order: seq<StreamId>, counts: map<StreamId, nat>)
  {
    && order == FirstSeen(ids)
    && (forall id :: id in counts <==> id in order)
    && (forall id :: id in counts ==> counts[id] == Occurrences(ids, id))
  }

  /** One iteration of the counting loop: a datagram with a key is counted under its
      (key, source) identity, a shorter one is skipped. */
  method CountDatagram(d: R.Received, ghost before: seq<StreamId>, order: seq<StreamId>, counts: map<StreamId, nat>)
    returns (order': seq<StreamId>, counts': map<StreamId, nat>)
    requires Counted(before, order, counts)
    ensures Counted(before + (match JavaId(d) case None => [] case Some(id) => [id]), order', counts')
  {
    var key := ParseIenaKey(d.data, d.length);
    if key < 0 {
      assert before + [] == before;
      return order, counts;
    }
    var id := StreamId(key, d.source);
    order', counts' := order, counts;
    if id !in counts' {
      order' := order' + [id];
      counts' := counts'[id := 0];
    }
    counts' := counts'[id := counts'[id] + 1];
    CountOne(before, id, order, counts, order', counts');
  }

  /** The counting loop of `discoverStreams`: `counts` with its insertion order `order`. */
  method CountStreams(ds: seq<R.Received>) returns (order: seq<StreamId>, counts: map<StreamId, nat>)
    ensures order == FirstSeen(Ids(ds))
    ensures forall id :: id in counts <==> id in order
    ensures forall id :: id in counts ==> counts[id] == Occurrences(Ids(ds), id)
  {
    order := [];
    counts := map[];
    var i := 0;
    while i < |ds|
      invariant 0 <= i <= |ds|
      invariant Counted(Ids(ds[..i]), order, counts)
    {
      IdsStep(ds, i);
      order, counts := CountDatagram(ds[i], Ids(ds[..i]), order, counts);
      i := i + 1;
    }
    assert ds[..i] == ds;
  }

  /** The loop building one `StreamInfo` per entry of `counts`, in insertion order. */
  method BuildResults(order: seq<StreamId>, counts: map<StreamId, nat>) returns (results: seq<StreamInfo>)
    requires forall id :: id in order ==> id in counts
    ensures |results| == |order|
    ensures forall i :: 0 <= i < |order| ==> results[i] == StreamInfo(order[i].key, order[i].source, counts[order[i]])
  {
    results := [];
    var i := 0;
    while i < |order|
      invariant 0 <= i <= |order|
      invariant |results| == i
      invariant forall j :: 0 <= j < i ==> results[j] == StreamInfo(order[j].key, order[j].source, counts[order[j]])
    {
      var id := order[i];
      results := results + [StreamInfo(id.key, id.source, counts[id])];
      i := i + 1;
    }
  }

  /** Counting, building and the stable sort by key. */
  method CountAndSort(ds: seq<R.Received>) returns (results: seq<StreamInfo>)
    ensures results == Results(ds)
  {
    var order, counts := CountStreams(ds);
    var unsorted := BuildResults(order, counts);
    assert unsorted == Tally(Ids(ds));
    results := SortBy(unsorted, InfoKey);
  }

  datatype DiscoveryError = JoinFailed

  /** `discoverStreams`: join every group (on `requested`, or on all eligible
      interfaces), count the datagrams, leave every recorded membership and report. A group
      that does not resolve or a join that throws ends the call with an error before any
      counting or leaving; `resolves` stands for name resolution. */
  method DiscoverStreams(groups: seq<M.Group>, requested: Option<M.Interface>, ifs: seq<M.Interface>,
                         resolves: M.Group -> bool,
                         joinOk: (M.Group, Option<M.Interface>) -> bool,
                         leaveOk: (M.Group, Option<M.Interface>) -> bool,
                         ds: seq<R.Received>)
    returns (r: Result<seq<StreamInfo>, DiscoveryError>, leaves: seq<M.LeaveAttempt>)
    ensures !M.JoinGroupsSpec(groups, requested, ifs, resolves, joinOk).ok ==> r == Failure(JoinFailed) && leaves == []
    ensures M.JoinGroupsSpec(groups, requested, ifs, resolves, joinOk).ok ==>
              && r == Success(Results(ds))
              && leaves == M.Leaves(M.JoinGroupsSpec(groups, requested, ifs, resolves, joinOk).joined, leaveOk)
  {
    var log := new M.JoinLog();
    var ok := log.JoinGroups(groups, requested, ifs, resolves, joinOk);
    if !ok {
      return Failure(JoinFailed), [];
    }
    var results := CountAndSort(ds);
    leaves := log.LeaveAll(true, leaveOk);
    r := Success(results);
  }

  // ------------------------------------------------------------------
  // Python's discover_streams
  // ------------------------------------------------------------------

  /** Reference count for Python: the datagrams that parse as packets of `n` slots with
      key `id.key`, sent by `id.source`. */
  function PyMatching(ds: seq<R.Received>, n: nat, id: StreamId): nat
  {
    if ds == [] then 0
    else
      var d := ds[|ds| - 1];
      var p := ParsePy(d.data[..d.length], n);
      PyMatching(ds[..|ds| - 1], n, id)
      + (if p.Some? && p.value.key == id.key && d.source == id.source then 1 else 0)
  }

  /** The counting loop of `discover_streams`: a new identity starts at 0 and each
      packet that parses adds 1. */
  method PyDiscoverStreams(ds: seq<R.Received>, numParams: nat) returns (streams: map<StreamId, nat>)
    ensures forall id :: id in streams <==> PyMatching(ds, numParams, id) > 0
    ensures forall id :: id in streams ==> streams[id] == PyMatching(ds, numParams, id)
  {
    streams := map[];
    var i := 0;
    while i < |ds|
      invariant 0 <= i <= |ds|
      invariant forall id :: id in streams <==> PyMatching(ds[..i], numParams, id) > 0
      invariant forall id :: id in streams ==> streams[id] == PyMatching(ds[..i], numParams, id)
    {
      var d := ds[i];
      assert ds[..i + 1][..i] == ds[..i] && ds[..i + 1][i] == d;
      var pkt := ParsePy(d.data[..d.length], numParams);
      if pkt.Some? {
        var id := StreamId(pkt.value.key, d.source);
        if id !in streams {
          streams := streams[id := 0];
        }
        streams := streams[id := streams[id] + 1];
      }
      i := i + 1;
    }
    assert ds[..i] == ds;
  }

  /** Python never counts more than Java: a packet that parses is at least 18 bytes
      long and its key is Java's `parseIenaKey`. */
  lemma {:induction false} PyCountsNoMoreThanJava(ds: seq<R.Received>, n: nat, id: StreamId)
    ensures PyMatching(ds, n, id) <= Matching(ds, id)
  {
    if ds != [] {
      var d := ds[|ds| - 1];
      PyCountsNoMoreThanJava(ds[..|ds| - 1], n, id);
      ParsersAgree(d.data, d.length, n);
    }
  }

  /** On a stream of well-formed packets the two counts agree. */
  lemma {:induction false} CountsAgreeOnWellFormed(ds: seq<R.Received>, n: nat, id: StreamId)
    requires forall k :: 0 <= k < |ds| ==> ParseJava(ds[k].data, ds[k].length, n).Some?
    ensures PyMatching(ds, n, id) == Matching(ds, id)
  {
    if ds != [] {
      var d := ds[|ds| - 1];
      CountsAgreeOnWellFormed(ds[..|ds| - 1], n, id);
      ParsersAgree(d.data, d.length, n);
    }
  }
}
