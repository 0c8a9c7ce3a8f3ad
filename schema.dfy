/** The parameter schema: the ordered list of named float32 slots that fixes the
    payload shape and the expected packet size (DataStream's constructor,
    `defaultParameters`, `getVariableNames`, the index sort of `loadXidML`, and
    the index sort of the Python `load_xidml`). */
module Schema {
  import opened Wrappers
  import opened StableSort

  const HEADER_SIZE: nat := 16
  const TRAILER_SIZE: nat := 2
  /** Bytes per payload slot (one float32). */
  const SLOT_SIZE: nat := 4
  /** Size of the built-in legacy schema. */
  const DEFAULT_COUNT: nat := 26

  /** Metadata for one stream parameter; floating-point ranges are kept as reals
      and never computed with. */
  datatype ParameterInfo = ParameterInfo(name: string, index: int, unit: string,
                                         rangeMin: real, rangeMax: real)

  /** The sizes the constructor derives from a parameter list of `n` entries. */
  function PayloadSize(n: nat): nat { n * 4 }

  function ExpectedPacketSize(n: nat): nat { HEADER_SIZE + PayloadSize(n) + TRAILER_SIZE }

  /** The packet layout partitions the expected size: header, then exactly `n`
      four-byte slots, then the trailer; the size is a whole number of 16-bit words. */
  lemma LayoutPartition(n: nat)
    ensures ExpectedPacketSize(n) - HEADER_SIZE - TRAILER_SIZE == SLOT_SIZE * n
    ensures ExpectedPacketSize(n) % 2 == 0 && ExpectedPacketSize(n) / 2 == 9 + 2 * n
  {
    assert ExpectedPacketSize(n) == 2 * (9 + 2 * n);
  }

  /** `String.valueOf((char) ('a' + i))`. */
  function Letter(i: nat): string
    requires i < DEFAULT_COUNT
  {
    [(('a' as int) + i) as char]
  }

  /** The legacy a..z schema: entry i is named 'a'+i, has index i, no unit and range [0, i+1]. */
  function DefaultParameterList(): seq<ParameterInfo>
  {
    seq(DEFAULT_COUNT, i requires 0 <= i < DEFAULT_COUNT =>
      ParameterInfo(Letter(i), i, "", 0.0, (i + 1) as real))
  }

  /** `defaultParameters()`: the 26-entry list, built by appending in a loop. */
  method DefaultParameters() returns (ps: seq<ParameterInfo>)
    ensures ps == DefaultParameterList()
  {
    ps := [];
    var i := 0;
    while i < 26
      invariant 0 <= i <= DEFAULT_COUNT
      invariant ps == DefaultParameterList()[..i]
    {
      ps := ps + [ParameterInfo(Letter(i), i, "", 0.0, (i + 1) as real)];
      i := i + 1;
    }
  }

  /** The variable names in list order (`paramNames`, returned by `getVariableNames`). */
  function Names(ps: seq<ParameterInfo>): (names: seq<string>)
    ensures |names| == |ps|
    ensures forall i :: 0 <= i < |ps| ==> names[i] == ps[i].name
  {
    seq(|ps|, i requires 0 <= i < |ps| => ps[i].name)
  }

  function IndexOf(p: ParameterInfo): int { p.index }

  /** The sort step of `loadXidML`: parameters ordered by index, ties kept in file order. */
  function SortedParameters(ps: seq<ParameterInfo>): (r: seq<ParameterInfo>)
    ensures SortedBy(r, IndexOf)
    ensures multiset(r) == multiset(ps)
    ensures forall k :: WithKey(r, IndexOf, k) == WithKey(ps, IndexOf, k)
  {
    forall k ensures WithKey(SortBy(ps, IndexOf), IndexOf, k) == WithKey(ps, IndexOf, k) {
      SortByStable(ps, IndexOf, k);
    }
    SortBy(ps, IndexOf)
  }

  /** The default schema exposes exactly the 26 names a..z, in alphabetical order. */
  lemma DefaultNames()
    ensures Names(DefaultParameterList())
         == ["a", "b", "c", "d", "e", "f", "g", "h", "i", "j", "k", "l", "m",
             "n", "o", "p", "q", "r", "s", "t", "u", "v", "w", "x", "y", "z"]
  {
    var names := Names(DefaultParameterList());
    DefaultNamesAtoM();
    DefaultNamesNtoZ();
    assert names == names[0..13] + names[13..26];
  }

  lemma DefaultNamesAtoM()
    ensures Names(DefaultParameterList())[0..13] == ["a", "b", "c", "d", "e", "f", "g", "h", "i", "j", "k", "l", "m"]
  {
    var ps := DefaultParameterList();
    assert ps[0].name == Letter(0) == "a";
    assert ps[1].name == Letter(1) == "b";
    assert ps[2].name == Letter(2) == "c";
    assert ps[3].name == Letter(3) == "d";
    assert ps[4].name == Letter(4) == "e";
    assert ps[5].name == Letter(5) == "f";
    assert ps[6].name == Letter(6) == "g";
    assert ps[7].name == Letter(7) == "h";
    assert ps[8].name == Letter(8) == "i";
    assert ps[9].name == Letter(9) == "j";
    assert ps[10].name == Letter(10) == "k";
    assert ps[11].name == Letter(11) == "l";
    assert ps[12].name == Letter(12) == "m";
  }

  lemma DefaultNamesNtoZ()
    ensures Names(DefaultParameterList())[13..26] == ["n", "o", "p", "q", "r", "s", "t", "u", "v", "w", "x", "y", "z"]
  {
    var ps := DefaultParameterList();
    assert ps[13].name == Letter(13) == "n";
    assert ps[14].name == Letter(14) == "o";
    assert ps[15].name == Letter(15) == "p";
    assert ps[16].name == Letter(16) == "q";
    assert ps[17].name == Letter(17) == "r";
    assert ps[18].name == Letter(18) == "s";
    assert ps[19].name == Letter(19) == "t";
    assert ps[20].name == Letter(20) == "u";
    assert ps[21].name == Letter(21) == "v";
    assert ps[22].name == Letter(22) == "w";
    assert ps[23].name == Letter(23) == "x";
    assert ps[24].name == Letter(24) == "y";
    assert ps[25].name == Letter(25) == "z";
  }

  /** The default indices 0..25 are already ascending, so sorting by index leaves the
      default list as it is; its packets are 122 bytes long. */
  lemma DefaultSchemaInOrder()
    ensures SortedParameters(DefaultParameterList()) == DefaultParameterList()
    ensures ExpectedPacketSize(|DefaultParameterList()|) == 122
  {
    var ps := DefaultParameterList();
    assert |ps| == DEFAULT_COUNT;
    assert forall i :: 0 <= i < |ps| ==> IndexOf(ps[i]) == i;
    assert SortedBy(ps, IndexOf);
    SortBySorted(ps, IndexOf);
  }

  /** A `<Parameter>` element as `load_xidml` reads it: its name and, if present, its index. */
  datatype XidmlParam = XidmlParam(name: string, index: Option<int>)

  /** `params.append((index, name))`, a missing index defaulting to `len(params)`,
      the number of parameters seen so far. */
  function IndexedParams(ps: seq<XidmlParam>): (r: seq<(int, string)>)
    ensures |r| == |ps|
    ensures forall i :: 0 <= i < |ps| ==> r[i].1 == ps[i].name
    ensures forall i :: 0 <= i < |ps| ==> r[i].0 == ps[i].index.GetOr(i)
  {
    seq(|ps|, i requires 0 <= i < |ps| => (ps[i].index.GetOr(i), ps[i].name))
  }

  function First(p: (int, string)): int { p.0 }

  /** The names of a list of (index, name) pairs, in order. */
  function Seconds(s: seq<(int, string)>): (r: seq<string>)
    ensures |r| == |s|
  {
    seq(|s|, i requires 0 <= i < |s| => s[i].1)
  }

  /** `load_xidml`'s result: names ordered by index ascending, ties stable. */
  function XidmlOrder(ps: seq<XidmlParam>): seq<string>
  {
    Seconds(SortBy(IndexedParams(ps), First))
  }

  /** The names come out as a permutation of the file's names, laid out by ascending
      index, and names sharing an index keep their file order. */
  lemma XidmlOrderSpec(ps: seq<XidmlParam>)
    ensures multiset(XidmlOrder(ps)) == multiset(Seconds(IndexedParams(ps)))
    ensures forall i :: 0 <= i < |ps| ==> Seconds(IndexedParams(ps))[i] == ps[i].name
    ensures SortedBy(SortBy(IndexedParams(ps), First), First)
    ensures forall k :: WithKey(SortBy(IndexedParams(ps), First), First, k)
                        == WithKey(IndexedParams(ps), First, k)
  {
    var ip := IndexedParams(ps);
    forall k ensures WithKey(SortBy(ip, First), First, k) == WithKey(ip, First, k) {
      SortByStable(ip, First, k);
    }
    SecondsPermutation(SortBy(ip, First), ip);
  }

  lemma SecondsAppend(u: seq<(int, string)>, v: seq<(int, string)>)
    ensures Seconds(u + v) == Seconds(u) + Seconds(v)
  {
    assert forall i :: 0 <= i < |u| ==> (u + v)[i] == u[i];
    assert forall i :: |u| <= i < |u + v| ==> (u + v)[i] == v[i - |u|];
  }

  lemma RemoveOne<T>(a: seq<T>, b: seq<T>, j: nat)
    requires multiset(a) == multiset(b)
    requires a != [] && j < |b| && b[j] == a[0]
    ensures multiset(a[1..]) == multiset(b[..j] + b[j + 1..])
    ensures b == b[..j] + [a[0]] + b[j + 1..]
  {
    var x, u, v := a[0], b[..j], b[j + 1..];
    assert b == u + [x] + v;
    assert a == [x] + a[1..];
    assert multiset(a) == multiset{x} + multiset(a[1..]);
    assert multiset(b) == multiset(u) + multiset{x} + multiset(v);
    assert multiset(u + v) == multiset(u) + multiset(v);
    assert multiset(a[1..]) == multiset(a) - multiset{x};
    assert multiset(u + v) == multiset(b) - multiset{x};
  }

  /** Reordering the pairs reorders their names the same way. */
  lemma {:induction false} SecondsPermutation(a: seq<(int, string)>, b: seq<(int, string)>)
    requires multiset(a) == multiset(b)
    ensures multiset(Seconds(a)) == multiset(Seconds(b))
    decreases |a|
  {
    if a == [] {
      assert |multiset(b)| == 0;
    } else {
      var x := a[0];
      var j := IndexOfMember(a, b);
      var u, v := b[..j], b[j + 1..];
      RemoveOne(a, b, j);
      SecondsPermutation(a[1..], u + v);
      SecondsAppend(u, v);
      SecondsAppend(u + [x], v);
      SecondsAppend(u, [x]);
      SecondsAppend([x], a[1..]);
      assert a == [x] + a[1..];
      var su, sv := Seconds(u), Seconds(v);
      assert Seconds(b) == su + [x.1] + sv;
      assert multiset(Seconds(b)) == multiset(su) + multiset{x.1} + multiset(sv);
    }
  }

  /** Where the head of `a` sits in its permutation `b`. */
  lemma IndexOfMember<T>(a: seq<T>, b: seq<T>) returns (j: nat)
    requires multiset(a) == multiset(b) && a != []
    ensures j < |b| && b[j] == a[0]
  {
    assert a[0] in multiset(b);
    j :| 0 <= j < |b| && b[j] == a[0];
  }

  /** Without any index attribute the file order is kept. */
  lemma XidmlOrderWithoutIndices(ps: seq<XidmlParam>)
    requires forall i :: 0 <= i < |ps| ==> ps[i].index.None?
    ensures XidmlOrder(ps) == seq(|ps|, i requires 0 <= i < |ps| => ps[i].name)
  {
    var ip := IndexedParams(ps);
    assert SortedBy(ip, First);
    SortBySorted(ip, First);
  }
}
