/** Interface selection and the join/leave bookkeeping of `DataStream`'s multicast
    helpers. The operating system's `joinGroup` and `leaveGroup` calls are oracles:
    total functions saying whether the call succeeds (returns) or fails (throws). */
module Multicast {
  import opened Wrappers

  /** A multicast group address, as the text the caller passed in. */
  type Group = string

  /** What the receiver asks of a network interface. */
  datatype Interface = Interface(name: string, isUp: bool, supportsMulticast: bool, isLoopback: bool)

  /** One recorded membership: a group and the interface it was joined on
      (`None` is Java's `null`, the interface the operating system chooses). */
  datatype Membership = Membership(group: Group, iface: Option<Interface>)

  /** One attempt of `leaveAllGroups`: the pair and whether `leaveGroup` returned. */
  datatype LeaveAttempt = LeaveAttempt(group: Group, iface: Option<Interface>, left: bool)

  /** One leave attempt per membership, in order, each with the oracle's answer. */
  function Leaves(ms: seq<Membership>, leaveOk: (Group, Option<Interface>) -> bool): (r: seq<LeaveAttempt>)
    ensures |r| == |ms|
  {
    seq(|ms|, k requires 0 <= k < |ms| => LeaveAttempt(ms[k].group, ms[k].iface, leaveOk(ms[k].group, ms[k].iface)))
  }

  /** `findMulticastInterfaces`' test. */
  predicate MulticastCapable(ni: Interface) {
    ni.isUp && ni.supportsMulticast && !ni.isLoopback
  }

  /** `findUsableInterfaces`' test. */
  predicate Usable(ni: Interface) {
    ni.isUp && !ni.isLoopback
  }

  /** The interfaces of `ifs` passing `MulticastCapable`, in enumeration order. */
  function MulticastInterfaces(ifs: seq<Interface>): (r: seq<Interface>)
    ensures |r| <= |ifs|
  {
    if ifs == [] then []
    else
      var last := ifs[|ifs| - 1];
      MulticastInterfaces(ifs[..|ifs| - 1]) + (if MulticastCapable(last) then [last] else [])
  }

  /** The interfaces of `ifs` passing `Usable`, in enumeration order. */
  function UsableInterfaces(ifs: seq<Interface>): (r: seq<Interface>)
    ensures |r| <= |ifs|
  {
    if ifs == [] then []
    else
      var last := ifs[|ifs| - 1];
      UsableInterfaces(ifs[..|ifs| - 1]) + (if Usable(last) then [last] else [])
  }

  /** The interfaces of `ifs` that support multicast, in order. */
  function WithMulticast(ifs: seq<Interface>): (r: seq<Interface>)
    ensures |r| <= |ifs|
  {
    if ifs == [] then []
    else
      var last := ifs[|ifs| - 1];
      WithMulticast(ifs[..|ifs| - 1]) + (if last.supportsMulticast then [last] else [])
  }

  /** An interface is selected exactly when it is enumerated and is up, multicast-capable
      and not a loopback. */
  lemma {:induction false} MulticastInterfacesMembers(ifs: seq<Interface>, ni: Interface)
    ensures ni in MulticastInterfaces(ifs) <==> ni in ifs && MulticastCapable(ni)
  {
    if ifs != [] {
      var init := ifs[..|ifs| - 1];
      MulticastInterfacesMembers(init, ni);
      assert ifs == init + [ifs[|ifs| - 1]];
    }
  }

  /** An interface is usable exactly when it is enumerated, up and not a loopback. */
  lemma {:induction false} UsableInterfacesMembers(ifs: seq<Interface>, ni: Interface)
    ensures ni in UsableInterfaces(ifs) <==> ni in ifs && Usable(ni)
  {
    if ifs != [] {
      var init := ifs[..|ifs| - 1];
      UsableInterfacesMembers(init, ni);
      assert ifs == init + [ifs[|ifs| - 1]];
    }
  }

  lemma {:induction false} WithMulticastAppend(a: seq<Interface>, b: seq<Interface>)
    ensures WithMulticast(a + b) == WithMulticast(a) + WithMulticast(b)
    decreases |b|
  {
    if b == [] {
      assert a + b == a;
    } else {
      var initB := b[..|b| - 1];
      var last := b[|b| - 1];
      var t := if last.supportsMulticast then [last] else [];
      WithMulticastAppend(a, initB);
      assert (a + b)[..|a + b| - 1] == a + initB;
      assert (a + b)[|a + b| - 1] == last;
      assert WithMulticast(a + b) == WithMulticast(a + initB) + t;
      assert WithMulticast(b) == WithMulticast(initB) + t;
      assert WithMulticast(a) + WithMulticast(initB) + t == WithMulticast(a) + (WithMulticast(initB) + t);
    }
  }

  /** The multicast list is the usable list narrowed to multicast-capable interfaces,
      order included. */
  lemma {:induction false} MulticastIsUsableWithMulticast(ifs: seq<Interface>)
    ensures MulticastInterfaces(ifs) == WithMulticast(UsableInterfaces(ifs))
  {
    if ifs != [] {
      var init := ifs[..|ifs| - 1];
      var last := ifs[|ifs| - 1];
      MulticastIsUsableWithMulticast(init);
      WithMulticastAppend(UsableInterfaces(init), if Usable(last) then [last] else []);
      if Usable(last) {
        assert WithMulticast([last]) == WithMulticast([]) + (if last.supportsMulticast then [last] else []) by {
          assert [last][..0] == [];
        }
      }
    }
  }

  /** `findMulticastInterfaces` over the enumeration `ifs`. */
  method FindMulticastInterfaces(ifs: seq<Interface>) returns (result: seq<Interface>)
    ensures result == MulticastInterfaces(ifs)
  {
    result := [];
    var i := 0;
    while i < |ifs|
      invariant 0 <= i <= |ifs|
      invariant result == MulticastInterfaces(ifs[..i])
    {
      var ni := ifs[i];
      assert ifs[..i + 1][..i] == ifs[..i];
      if MulticastCapable(ni) {
        result := result + [ni];
      }
      i := i + 1;
    }
    assert ifs[..i] == ifs;
  }

  /** `findUsableInterfaces` over the enumeration `ifs`. */
  method FindUsableInterfaces(ifs: seq<Interface>) returns (result: seq<Interface>)
    ensures result == UsableInterfaces(ifs)
  {
    result := [];
    var i := 0;
    while i < |ifs|
      invariant 0 <= i <= |ifs|
      invariant result == UsableInterfaces(ifs[..i])
    {
      var ni := ifs[i];
      assert ifs[..i + 1][..i] == ifs[..i];
      if Usable(ni) {
        result := result + [ni];
      }
      i := i + 1;
    }
    assert ifs[..i] == ifs;
  }

  /** The interfaces among `eligible` whose join of `g` succeeds, in order. */
  function Joined(g: Group, eligible: seq<Interface>, joinOk: (Group, Option<Interface>) -> bool): (r: seq<Option<Interface>>)
    ensures |r| <= |eligible|
  {
    if eligible == [] then []
    else
      var last := eligible[|eligible| - 1];
      Joined(g, eligible[..|eligible| - 1], joinOk) + (if joinOk(g, Some(last)) then [Some(last)] else [])
  }

  /** What `joinMulticastOnAllInterfaces` records for group `g`: `None` when the call
      throws (only the operating-system fallback can), otherwise the interfaces joined. */
  function JoinAllSpec(g: Group, ifs: seq<Interface>, joinOk: (Group, Option<Interface>) -> bool): Option<seq<Option<Interface>>>
  {
    var eligible := MulticastInterfaces(ifs);
    if eligible == [] then (if joinOk(g, None) then Some([None]) else None)
    else Some(Joined(g, eligible, joinOk))
  }

  lemma {:induction false} JoinedMembers(g: Group, eligible: seq<Interface>, joinOk: (Group, Option<Interface>) -> bool, x: Option<Interface>)
    ensures x in Joined(g, eligible, joinOk) <==> x.Some? && x.value in eligible && joinOk(g, x)
  {
    if eligible != [] {
      var init := eligible[..|eligible| - 1];
      JoinedMembers(g, init, joinOk, x);
      assert eligible == init + [eligible[|eligible| - 1]];
    }
  }

  /** With no interface requested, the recorded interfaces are exactly the eligible ones
      whose join succeeded; when none is eligible, a single operating-system default entry
      is recorded if its join succeeds, and the call fails otherwise. */
  lemma JoinAllSpecCharacterised(g: Group, ifs: seq<Interface>, joinOk: (Group, Option<Interface>) -> bool)
    ensures JoinAllSpec(g, ifs, joinOk).None? <==> (forall ni :: ni in ifs ==> !MulticastCapable(ni)) && !joinOk(g, None)
    ensures JoinAllSpec(g, ifs, joinOk) == Some([None]) <==> (forall ni :: ni in ifs ==> !MulticastCapable(ni)) && joinOk(g, None)
    ensures (exists ni :: ni in ifs && MulticastCapable(ni)) ==>
              && JoinAllSpec(g, ifs, joinOk).Some?
              && forall x :: x in JoinAllSpec(g, ifs, joinOk).value <==>
                   x.Some? && x.value in ifs && MulticastCapable(x.value) && joinOk(g, x)
  {
    var eligible := MulticastInterfaces(ifs);
    forall ni {
      MulticastInterfacesMembers(ifs, ni);
    }
    if eligible != [] {
      assert eligible[0] in eligible;
      forall x
        ensures x in Joined(g, eligible, joinOk) <==> x.Some? && x.value in ifs && MulticastCapable(x.value) && joinOk(g, x)
      {
        JoinedMembers(g, eligible, joinOk, x);
        if x.Some? {
          MulticastInterfacesMembers(ifs, x.value);
        }
      }
      assert None !in Joined(g, eligible, joinOk);
    }
  }

  /** What joining one group records. A group name that does not resolve throws before
      any join (`InetAddress.getByName`); otherwise the group is joined on the requested
      interface when there is one (a failure throws), or on all eligible interfaces. */
  function JoinOneSpec(g: Group, requested: Option<Interface>, ifs: seq<Interface>, resolves: Group -> bool, joinOk: (Group, Option<Interface>) -> bool): Option<seq<Membership>>
  {
    if !resolves(g) then None
    else
    match requested
    case Some(ni) => if joinOk(g, Some(ni)) then Some([Membership(g, Some(ni))]) else None
    case None =>
      match JoinAllSpec(g, ifs, joinOk)
      case None => None
      case Some(nis) => Some(Tag(g, nis))
  }

  /** The memberships of group `g` on each of `nis`. */
  function Tag(g: Group, nis: seq<Option<Interface>>): (ms: seq<Membership>)
    ensures |ms| == |nis|
    ensures forall k :: 0 <= k < |ms| ==> ms[k] == Membership(g, nis[k])
  {
    seq(|nis|, k requires 0 <= k < |nis| => Membership(g, nis[k]))
  }

  /** The outcome of joining the groups `gs` in order: the memberships recorded and
      whether every join returned (the first throwing join stops the sequence). */
  datatype JoinOutcome = JoinOutcome(joined: seq<Membership>, ok: bool)

  function JoinGroupsSpec(gs: seq<Group>, requested: Option<Interface>, ifs: seq<Interface>, resolves: Group -> bool, joinOk: (Group, Option<Interface>) -> bool): JoinOutcome
  {
    if gs == [] then JoinOutcome([], true)
    else
      match JoinOneSpec(gs[0], requested, ifs, resolves, joinOk)
      case None => JoinOutcome([], false)
      case Some(ms) =>
        var rest := JoinGroupsSpec(gs[1..], requested, ifs, resolves, joinOk);
        JoinOutcome(ms + rest.joined, rest.ok)
  }

  lemma JoinGroupsUnfold(gs: seq<Group>, i: nat, requested: Option<Interface>, ifs: seq<Interface>,
                         resolves: Group -> bool, joinOk: (Group, Option<Interface>) -> bool)
    requires i < |gs|
    ensures JoinOneSpec(gs[i], requested, ifs, resolves, joinOk).None? ==>
              JoinGroupsSpec(gs[i..], requested, ifs, resolves, joinOk) == JoinOutcome([], false)
    ensures JoinOneSpec(gs[i], requested, ifs, resolves, joinOk).Some? ==>
              JoinGroupsSpec(gs[i..], requested, ifs, resolves, joinOk) ==
                JoinOutcome(JoinOneSpec(gs[i], requested, ifs, resolves, joinOk).value + JoinGroupsSpec(gs[i + 1..], requested, ifs, resolves, joinOk).joined,
                            JoinGroupsSpec(gs[i + 1..], requested, ifs, resolves, joinOk).ok)
  {
    assert gs[i..][0] == gs[i] && gs[i..][1..] == gs[i + 1..];
  }

  /** One step of the join loop: with `done` recorded for the groups before `i`, a
      failing join of group `i` ends the outcome there, and a successful one extends
      `done` by its memberships. */
  lemma JoinGroupsStep(gs: seq<Group>, i: nat, requested: Option<Interface>, ifs: seq<Interface>,
                       resolves: Group -> bool, joinOk: (Group, Option<Interface>) -> bool, done: seq<Membership>)
    requires i < |gs|
    requires JoinGroupsSpec(gs, requested, ifs, resolves, joinOk).joined == done + JoinGroupsSpec(gs[i..], requested, ifs, resolves, joinOk).joined
    requires JoinGroupsSpec(gs, requested, ifs, resolves, joinOk).ok == JoinGroupsSpec(gs[i..], requested, ifs, resolves, joinOk).ok
    ensures JoinOneSpec(gs[i], requested, ifs, resolves, joinOk).None? ==>
              JoinGroupsSpec(gs, requested, ifs, resolves, joinOk) == JoinOutcome(done, false)
    ensures JoinOneSpec(gs[i], requested, ifs, resolves, joinOk).Some? ==>
              && JoinGroupsSpec(gs, requested, ifs, resolves, joinOk).joined
                 == (done + JoinOneSpec(gs[i], requested, ifs, resolves, joinOk).value) + JoinGroupsSpec(gs[i + 1..], requested, ifs, resolves, joinOk).joined
              && JoinGroupsSpec(gs, requested, ifs, resolves, joinOk).ok == JoinGroupsSpec(gs[i + 1..], requested, ifs, resolves, joinOk).ok
  {
    JoinGroupsUnfold(gs, i, requested, ifs, resolves, joinOk);
    var one := JoinOneSpec(gs[i], requested, ifs, resolves, joinOk);
    if one.None? {
      assert done + [] == done;
    } else {
      Associative(done, one.value, JoinGroupsSpec(gs[i + 1..], requested, ifs, resolves, joinOk).joined);
    }
  }

  lemma Associative<T>(a: seq<T>, b: seq<T>, c: seq<T>)
    ensures a + b + c == a + (b + c)
  {
  }

  /** Every recorded membership names one of the requested groups, and its interface is
      either the requested one or, with none requested, an eligible interface whose join
      succeeded or the operating-system default. */
  lemma {:induction false} JoinGroupsRecordsOnlySuccesses(gs: seq<Group>, requested: Option<Interface>, ifs: seq<Interface>,
                                                           resolves: Group -> bool, joinOk: (Group, Option<Interface>) -> bool)
    ensures forall m :: m in JoinGroupsSpec(gs, requested, ifs, resolves, joinOk).joined ==>
              && m.group in gs
              && resolves(m.group)
              && joinOk(m.group, m.iface)
              && (requested.Some? ==> m.iface == requested)
              && (requested.None? && m.iface.Some? ==> m.iface.value in ifs && MulticastCapable(m.iface.value))
  {
    if gs != [] {
      JoinGroupsRecordsOnlySuccesses(gs[1..], requested, ifs, resolves, joinOk);
      var g := gs[0];
      match JoinOneSpec(g, requested, ifs, resolves, joinOk)
      case None =>
      case Some(ms) =>
        if requested.None? {
          JoinAllSpecCharacterised(g, ifs, joinOk);
          var nis := JoinAllSpec(g, ifs, joinOk).value;
          forall m | m in ms
            ensures m.group == g && joinOk(g, m.iface)
            ensures m.iface.Some? ==> m.iface.value in ifs && MulticastCapable(m.iface.value)
          {
            var k :| 0 <= k < |ms| && ms[k] == m;
            assert m.iface == nis[k] && nis[k] in nis;
            if nis == [None] {
            } else {
              assert exists ni :: ni in ifs && MulticastCapable(ni) by {
                var eligible := MulticastInterfaces(ifs);
                assert eligible != [];
                assert eligible[0] in eligible;
                MulticastInterfacesMembers(ifs, eligible[0]);
              }
            }
          }
        }
        forall m | m in JoinGroupsSpec(gs[1..], requested, ifs, resolves, joinOk).joined ensures m.group in gs {
          assert m.group in gs[1..];
        }
    }
  }

  /** A group name that does not resolve makes the whole join sequence fail, whatever the
      interfaces and the join answers. */
  lemma {:induction false} UnresolvedGroupFails(gs: seq<Group>, requested: Option<Interface>, ifs: seq<Interface>,
                                                resolves: Group -> bool, joinOk: (Group, Option<Interface>) -> bool)
    requires exists g :: g in gs && !resolves(g)
    ensures !JoinGroupsSpec(gs, requested, ifs, resolves, joinOk).ok
  {
    if resolves(gs[0]) && JoinOneSpec(gs[0], requested, ifs, resolves, joinOk).Some? {
      var g :| g in gs && !resolves(g);
      assert g in gs[1..];
      UnresolvedGroupFails(gs[1..], requested, ifs, resolves, joinOk);
    }
  }

  /** The two parallel lists `joinedGroups` and `joinedIfaces` that the join helpers
      append to and `leaveAllGroups` walks. */
  class JoinLog {
    var groups: seq<Group>
    var ifaces: seq<Option<Interface>>

    /** The lists stay parallel. */
    predicate Valid()
      reads this
    {
      |groups| == |ifaces|
    }

    /** The recorded pairs. */
    function Memberships(): (ms: seq<Membership>)
      reads this
      requires Valid()
      ensures |ms| == |groups|
      ensures forall k :: 0 <= k < |ms| ==> ms[k].group == groups[k] && ms[k].iface == ifaces[k]
    {
      var gs, nis := groups, ifaces;
      seq(|gs|, k requires 0 <= k < |gs| && k < |nis| => Membership(gs[k], nis[k]))
    }

    constructor ()
      ensures Valid() && groups == [] && ifaces == []
    {
      groups := [];
      ifaces := [];
    }

    /** Record one pair. */
    method Record(g: Group, ni: Option<Interface>)
      modifies this
      requires Valid()
      ensures Valid()
      ensures groups == old(groups) + [g] && ifaces == old(ifaces) + [ni]
      ensures Memberships() == old(Memberships()) + [Membership(g, ni)]
    {
      groups := groups + [g];
      ifaces := ifaces + [ni];
    }

    /** `socket.joinGroup(g, ni)` followed by recording the pair; `ok` is false when the
        join throws, and then nothing is recorded. */
    method JoinOn(g: Group, ni: Option<Interface>, joinOk: (Group, Option<Interface>) -> bool) returns (ok: bool)
      modifies this
      requires Valid()
      ensures Valid()
      ensures ok == joinOk(g, ni)
      ensures Memberships() == old(Memberships()) + (if ok then [Membership(g, ni)] else [])
    {
      ok := joinOk(g, ni);
      if ok {
        Record(g, ni);
      }
    }

    /** `joinMulticastOnAllInterfaces`: `ok` is false only when no interface is eligible
        and the operating-system default join throws. */
    method JoinOnAllInterfaces(g: Group, ifs: seq<Interface>, joinOk: (Group, Option<Interface>) -> bool) returns (ok: bool)
      modifies this
      requires Valid()
      ensures Valid()
      ensures ok == JoinAllSpec(g, ifs, joinOk).Some?
      ensures ok ==> Memberships() == old(Memberships()) + Tag(g, JoinAllSpec(g, ifs, joinOk).value)
      ensures !ok ==> Memberships() == old(Memberships())
    {
      var eligible := FindMulticastInterfaces(ifs);
      if eligible == [] {
        ok := JoinOn(g, None, joinOk);
        assert Tag(g, [None]) == [Membership(g, None)];
        return;
      }
      var i := 0;
      while i < |eligible|
        invariant 0 <= i <= |eligible|
        invariant Valid()
        invariant Memberships() == old(Memberships()) + Tag(g, Joined(g, eligible[..i], joinOk))
      {
        var ni := eligible[i];
        assert eligible[..i + 1][..i] == eligible[..i];
        ok := JoinOn(g, Some(ni), joinOk);
        i := i + 1;
      }
      assert eligible[..i] == eligible;
      ok := true;
    }

    /** Join one group on `requested`, or on all interfaces when none is requested. */
    method JoinOne(g: Group, requested: Option<Interface>, ifs: seq<Interface>,
                   resolves: Group -> bool, joinOk: (Group, Option<Interface>) -> bool) returns (ok: bool)
      modifies this
      requires Valid()
      ensures Valid()
      ensures ok == JoinOneSpec(g, requested, ifs, resolves, joinOk).Some?
      ensures Memberships() == old(Memberships()) + (if ok then JoinOneSpec(g, requested, ifs, resolves, joinOk).value else [])
    {
      if !resolves(g) {
        return false;
      }
      if requested.Some? {
        ok := JoinOn(g, requested, joinOk);
      } else {
        ok := JoinOnAllInterfaces(g, ifs, joinOk);
      }
    }

    /** Join every group of `gs` in order, on `requested` or on all interfaces, as the
        receive loop (one group) and stream discovery (several groups) do; the first join
        that throws stops the sequence, keeping what was recorded before it. */
    method JoinGroups(gs: seq<Group>, requested: Option<Interface>, ifs: seq<Interface>,
                      resolves: Group -> bool, joinOk: (Group, Option<Interface>) -> bool) returns (ok: bool)
      modifies this
      requires Valid()
      ensures Valid()
      ensures ok == JoinGroupsSpec(gs, requested, ifs, resolves, joinOk).ok
      ensures Memberships() == old(Memberships()) + JoinGroupsSpec(gs, requested, ifs, resolves, joinOk).joined
    {
      var i := 0;
      ghost var start := Memberships();
      ghost var done: seq<Membership> := [];
      while i < |gs|
        invariant 0 <= i <= |gs|
        invariant Valid()
        invariant Memberships() == start + done
        invariant JoinGroupsSpec(gs, requested, ifs, resolves, joinOk).joined == done + JoinGroupsSpec(gs[i..], requested, ifs, resolves, joinOk).joined
        invariant JoinGroupsSpec(gs, requested, ifs, resolves, joinOk).ok == JoinGroupsSpec(gs[i..], requested, ifs, resolves, joinOk).ok
      {
        ghost var one := JoinOneSpec(gs[i], requested, ifs, resolves, joinOk);
        JoinGroupsStep(gs, i, requested, ifs, resolves, joinOk, done);
        ok := JoinOne(gs[i], requested, ifs, resolves, joinOk);
        if !ok {
          return;
        }
        Associative(start, done, one.value);
        done := done + one.value;
        i := i + 1;
      }
      assert gs[i..] == [];
      assert done + [] == done;
      ok := true;
    }

    /** `leaveAllGroups`: with a socket, one leave attempt per recorded pair in order,
        failures ignored; without one, nothing. */
    method LeaveAll(socketOpen: bool, leaveOk: (Group, Option<Interface>) -> bool) returns (attempts: seq<LeaveAttempt>)
      requires Valid()
      ensures !socketOpen ==> attempts == []
      ensures socketOpen ==> |attempts| == |groups|
      ensures socketOpen ==> attempts == Leaves(Memberships(), leaveOk)
      ensures socketOpen ==> forall k :: 0 <= k < |attempts| ==>
                attempts[k] == LeaveAttempt(groups[k], ifaces[k], leaveOk(groups[k], ifaces[k]))
    {
      attempts := [];
      if !socketOpen {
        return;
      }
      var i := 0;
      while i < |groups|
        invariant 0 <= i <= |groups|
        invariant |attempts| == i
        invariant forall k :: 0 <= k < i ==>
                    attempts[k] == LeaveAttempt(groups[k], ifaces[k], leaveOk(groups[k], ifaces[k]))
      {
        attempts := attempts + [LeaveAttempt(groups[i], ifaces[i], leaveOk(groups[i], ifaces[i]))];
        i := i + 1;
      }
    }
  }
}
