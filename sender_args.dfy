/** The sender's variable-name list: `[v.strip() for v in args.vars.split(',') if
    v.strip()]`, rejected when empty. Splitting and stripping follow Python's
    `str.split(',')` and `str.strip()`. */
module SenderArgs {
  import opened Wrappers

  const SEP: char := ','

  /** Python's `str.isspace` for one character: the ASCII controls 0x09-0x0D and
      0x1C-0x1F, space, and the Unicode separators Python treats as whitespace. */
  predicate IsSpace(c: char) {
    var x := c as int;
    || (0x09 <= x <= 0x0D) || (0x1C <= x <= 0x20) || x == 0x85 || x == 0xA0 || x == 0x1680
    || (0x2000 <= x <= 0x200A) || x == 0x2028 || x == 0x2029 || x == 0x202F
    || x == 0x205F || x == 0x3000
  }

  /** `s.split(sep)`: the pieces between separators, always at least one. */
  function SplitOn(s: string, sep: char): (parts: seq<string>)
    ensures |parts| >= 1
  {
    if s == [] then [""]
    else
      var rest := SplitOn(s[1..], sep);
      if s[0] == sep then [""] + rest else [[s[0]] + rest[0]] + rest[1..]
  }

  /** `sep.join(parts)`. */
  function JoinWith(parts: seq<string>, sep: char): string
    requires |parts| >= 1
  {
    if |parts| == 1 then parts[0] else parts[0] + [sep] + JoinWith(parts[1..], sep)
  }

  /** Splitting loses nothing: joining the pieces gives back the text, and no piece
      holds a separator. */
  lemma {:induction false} SplitJoin(s: string, sep: char)
    ensures JoinWith(SplitOn(s, sep), sep) == s
    ensures forall i :: 0 <= i < |SplitOn(s, sep)| ==> sep !in SplitOn(s, sep)[i]
  {
    if s != [] {
      SplitJoin(s[1..], sep);
      var rest := SplitOn(s[1..], sep);
      if s[0] == sep {
        assert ([""] + rest)[1..] == rest;
        assert s == [s[0]] + s[1..];
      } else {
        var parts := [[s[0]] + rest[0]] + rest[1..];
        if |rest| == 1 {
          assert s == [s[0]] + rest[0];
        } else {
          assert parts[1..] == rest[1..];
          assert JoinWith(rest, sep) == rest[0] + [sep] + JoinWith(rest[1..], sep);
          assert s == [s[0]] + rest[0] + [sep] + JoinWith(rest[1..], sep);
        }
      }
    }
  }

  /** No piece of a split holds the separator. */
  lemma {:induction false} SplitNoSep(s: string, sep: char)
    ensures forall i :: 0 <= i < |SplitOn(s, sep)| ==> sep !in SplitOn(s, sep)[i]
  {
    if s != [] {
      SplitNoSep(s[1..], sep);
    }
  }

  lemma {:induction false} SplitWithoutSep(s: string, sep: char)
    requires sep !in s
    ensures SplitOn(s, sep) == [s]
  {
    if s != [] {
      assert sep !in s[1..] by { assert forall c :: c in s[1..] ==> c in s; }
      SplitWithoutSep(s[1..], sep);
      assert s == [s[0]] + s[1..];
    }
  }

  lemma {:induction false} SplitAfterPiece(a: string, b: string, sep: char)
    requires sep !in a
    ensures SplitOn(a + [sep] + b, sep) == [a] + SplitOn(b, sep)
  {
    if a == [] {
      assert [] + [sep] + b == [sep] + b;
      assert ([sep] + b)[1..] == b;
    } else {
      assert sep !in a[1..] by { assert forall c :: c in a[1..] ==> c in a; }
      SplitAfterPiece(a[1..], b, sep);
      assert (a + [sep] + b)[1..] == a[1..] + [sep] + b;
      assert a == [a[0]] + a[1..];
    }
  }

  /** Joining pieces free of separators and splitting again gives the pieces back. */
  lemma {:induction false} JoinSplit(parts: seq<string>, sep: char)
    requires |parts| >= 1
    requires forall i :: 0 <= i < |parts| ==> sep !in parts[i]
    ensures SplitOn(JoinWith(parts, sep), sep) == parts
  {
    if |parts| == 1 {
      SplitWithoutSep(parts[0], sep);
    } else {
      JoinSplit(parts[1..], sep);
      SplitAfterPiece(parts[0], JoinWith(parts[1..], sep), sep);
      assert parts == [parts[0]] + parts[1..];
    }
  }

  predicate AllSpace(s: string) {
    forall k :: 0 <= k < |s| ==> IsSpace(s[k])
  }

  lemma AllSpaceConcat(a: string, b: string)
    requires AllSpace(a) && AllSpace(b)
    ensures AllSpace(a + b)
  {
    forall k | 0 <= k < |a + b| ensures IsSpace((a + b)[k]) {
      if k < |a| { assert (a + b)[k] == a[k]; } else { assert (a + b)[k] == b[k - |a|]; }
    }
  }

  /** The number of leading whitespace characters. */
  function LeadingSpaces(s: string): (i: nat)
    ensures i <= |s|
    ensures AllSpace(s[..i])
    ensures i < |s| ==> !IsSpace(s[i])
  {
    if s != [] && IsSpace(s[0]) then
      var k := LeadingSpaces(s[1..]);
      assert s[..k + 1] == [s[0]] + s[1..][..k];
      1 + k
    else 0
  }

  /** The length of `s` without its trailing whitespace. */
  function TrimmedLength(s: string): (j: nat)
    ensures j <= |s|
    ensures AllSpace(s[j..])
    ensures 0 < j ==> !IsSpace(s[j - 1])
  {
    if s != [] && IsSpace(s[|s| - 1]) then
      var j := TrimmedLength(s[..|s| - 1]);
      assert s[j..] == s[..|s| - 1][j..] + [s[|s| - 1]];
      j
    else |s|
  }

  /** `s.strip()`: the middle of `s` between its leading and trailing whitespace. */
  function Strip(s: string): string
  {
    var t := s[LeadingSpaces(s)..];
    t[..TrimmedLength(t)]
  }

  /** What `strip()` removes is exactly the surrounding whitespace: the result sits
      between an all-whitespace prefix and suffix of `s`, is empty exactly when `s` is
      all whitespace, and otherwise neither starts nor ends with whitespace. */
  lemma StripSpec(s: string)
    ensures LeadingSpaces(s) + |Strip(s)| <= |s|
    ensures s == s[..LeadingSpaces(s)] + Strip(s) + s[LeadingSpaces(s) + |Strip(s)|..]
    ensures AllSpace(s[..LeadingSpaces(s)]) && AllSpace(s[LeadingSpaces(s) + |Strip(s)|..])
    ensures Strip(s) == [] <==> AllSpace(s)
    ensures Strip(s) != [] ==> !IsSpace(Strip(s)[0]) && !IsSpace(Strip(s)[|Strip(s)| - 1])
  {
    var i := LeadingSpaces(s);
    var j := TrimmedLength(s[i..]);
    var r := Strip(s);
    assert r == s[i..][..j] && |r| == j;
    StripMiddle(s, i, j);
  }

  lemma StripMiddle(s: string, i: nat, j: nat)
    requires i == LeadingSpaces(s) && j == TrimmedLength(s[i..])
    ensures s == s[..i] + s[i..][..j] + s[i + j..]
    ensures AllSpace(s[i + j..])
    ensures j == 0 <==> AllSpace(s)
    ensures j != 0 ==> !IsSpace(s[i]) && !IsSpace(s[i + j - 1])
  {
    var t := s[i..];
    assert s == s[..i] + t[..j] + t[j..];
    assert s[i + j..] == t[j..];
    if j == 0 {
      AllSpaceConcat(s[..i], t);
      assert s == s[..i] + t;
    } else {
      assert !IsSpace(t[j - 1]);
      assert t[0] == s[i];
    }
  }

  /** `[v.strip() for v in parts if v.strip()]`. */
  function CleanNames(parts: seq<string>): (names: seq<string>)
  {
    if parts == [] then []
    else
      var n := Strip(parts[0]);
      (if n == [] then [] else [n]) + CleanNames(parts[1..])
  }

  datatype VarsError = NoVariableNames

  /** The `--vars` option: names split on commas, stripped, empties dropped; an empty
      list is rejected ("At least one variable name is required"). */
  function ParseVarNames(vars: string): (r: Result<seq<string>, VarsError>)
    ensures r.Success? ==> |r.value| >= 1
    ensures r.Success? ==> forall i :: 0 <= i < |r.value| ==> CleanName(r.value[i])
  {
    var parts := SplitOn(vars, SEP);
    var names := CleanNames(parts);
    SplitNoSep(vars, SEP);
    CleanNamesClean(parts);
    if names == [] then Failure(NoVariableNames) else Success(names)
  }

  /** A usable variable name: non-empty, comma-free, no surrounding whitespace. */
  predicate CleanName(n: string) {
    n != [] && SEP !in n && !IsSpace(n[0]) && !IsSpace(n[|n| - 1])
  }

  lemma {:induction false} CleanNamesClean(parts: seq<string>)
    requires forall i :: 0 <= i < |parts| ==> SEP !in parts[i]
    ensures forall i :: 0 <= i < |CleanNames(parts)| ==> CleanName(CleanNames(parts)[i])
  {
    if parts != [] {
      var tail := parts[1..];
      assert forall i :: 0 <= i < |tail| ==> tail[i] == parts[i + 1];
      CleanNamesClean(tail);
      var s := parts[0];
      var n := Strip(s);
      StripSpec(s);
      assert SEP !in n by {
        var i := LeadingSpaces(s);
        assert n == s[i..][..|n|];
        assert forall k :: 0 <= k < |n| ==> n[k] == s[i + k];
      }
      var head := if n == [] then [] else [n];
      assert forall k :: 0 <= k < |head| ==> CleanName(head[k]);
      var rest := CleanNames(tail);
      assert CleanNames(parts) == head + rest;
      forall k | 0 <= k < |head + rest| ensures CleanName((head + rest)[k]) {
        if k >= |head| { assert (head + rest)[k] == rest[k - |head|]; }
      }
    }
  }

  lemma AllSpaceCons(c: char, t: string)
    ensures AllSpace([c] + t) <==> IsSpace(c) && AllSpace(t)
  {
    var u := [c] + t;
    assert u[0] == c;
    assert forall k :: 0 <= k < |t| ==> u[k + 1] == t[k];
    if IsSpace(c) && AllSpace(t) {
      AllSpaceConcat([c], t);
    }
  }

  /** Only commas and whitespace. */
  predicate Blank(s: string) {
    forall k :: 0 <= k < |s| ==> s[k] == SEP || IsSpace(s[k])
  }

  /** An option value is rejected exactly when it holds nothing but commas and whitespace. */
  lemma {:induction false} RejectedIffBlank(vars: string)
    ensures ParseVarNames(vars).Failure? <==> Blank(vars)
  {
    CleanNamesBlank(vars);
  }

  lemma CleanNamesBlank(s: string)
    ensures CleanNames(SplitOn(s, SEP)) == [] <==> Blank(s)
  {
    CleanNamesEmpty(SplitOn(s, SEP));
    SplitBlank(s);
  }

  /** Every piece is whitespace only. */
  predicate AllPiecesSpace(parts: seq<string>) {
    forall i :: 0 <= i < |parts| ==> AllSpace(parts[i])
  }

  lemma {:induction false} CleanNamesEmpty(parts: seq<string>)
    ensures CleanNames(parts) == [] <==> AllPiecesSpace(parts)
  {
    if parts != [] {
      CleanNamesEmpty(parts[1..]);
      StripSpec(parts[0]);
      assert parts == [parts[0]] + parts[1..];
      AllPiecesSpaceCons(parts[0], parts[1..]);
    }
  }

  lemma AllPiecesSpaceCons(p: string, ps: seq<string>)
    ensures AllPiecesSpace([p] + ps) <==> AllSpace(p) && AllPiecesSpace(ps)
  {
    var u := [p] + ps;
    assert u[0] == p;
    assert forall i :: 0 <= i < |ps| ==> u[i + 1] == ps[i];
    if AllSpace(p) && AllPiecesSpace(ps) {
      forall i | 0 <= i < |u| ensures AllSpace(u[i]) {
        if i > 0 { assert u[i] == ps[i - 1]; }
      }
    }
  }

  lemma {:induction false} SplitBlank(s: string)
    ensures AllPiecesSpace(SplitOn(s, SEP)) <==> Blank(s)
  {
    if s != [] {
      SplitBlank(s[1..]);
      var rest := SplitOn(s[1..], SEP);
      assert Blank(s) <==> (s[0] == SEP || IsSpace(s[0])) && Blank(s[1..]) by {
        assert forall k :: 1 <= k < |s| ==> s[k] == s[1..][k - 1];
      }
      assert rest == [rest[0]] + rest[1..];
      AllPiecesSpaceCons(rest[0], rest[1..]);
      if s[0] == SEP {
        AllPiecesSpaceCons("", rest);
      } else {
        AllSpaceCons(s[0], rest[0]);
        AllPiecesSpaceCons([s[0]] + rest[0], rest[1..]);
      }
    }
  }

  /** Names that are non-empty, comma-free and already stripped survive a trip through
      `','.join(...)` and the option parser unchanged (the sender's default value is
      such a join of a..z). */
  lemma {:induction false} ParseJoinedNames(names: seq<string>)
    requires |names| >= 1
    requires forall i :: 0 <= i < |names| ==> CleanName(names[i])
    ensures ParseVarNames(JoinWith(names, SEP)) == Success(names)
  {
    JoinSplit(names, SEP);
    forall i | 0 <= i < |names| ensures Strip(names[i]) == names[i] {
      StripKeeps(names[i]);
    }
    CleanNamesKeeps(names);
  }

  /** Pieces that strip to themselves and are not empty are all kept, unchanged. */
  lemma {:induction false} CleanNamesKeeps(names: seq<string>)
    requires forall i :: 0 <= i < |names| ==> names[i] != [] && Strip(names[i]) == names[i]
    ensures CleanNames(names) == names
  {
    if names != [] {
      var tail := names[1..];
      assert forall i :: 0 <= i < |tail| ==> tail[i] == names[i + 1];
      CleanNamesKeeps(tail);
      assert names == [names[0]] + tail;
    }
  }

  lemma StripKeeps(s: string)
    requires s != [] && !IsSpace(s[0]) && !IsSpace(s[|s| - 1])
    ensures Strip(s) == s
  {
    assert LeadingSpaces(s) == 0;
    assert TrimmedLength(s) == |s|;
    assert s[0..] == s;
  }
}
