/** Small building blocks shared by the models: optional values, clamped reals,
    and the ASCII text helpers the programs apply to identifiers and statuses. */
module Basics {

  datatype Option<+T> = None | Some(value: T) {
    function GetOr(default: T): T {
      match this
      case None => default
      case Some(v) => v
    }
  }

  function Max(x: real, y: real): real { if x >= y then x else y }

  function Min(x: real, y: real): real { if x <= y then x else y }

  function Abs(x: real): real { if x < 0.0 then -x else x }

  /** `max(lo, min(hi, x))`. */
  function Clip(x: real, lo: real, hi: real): (r: real)
    requires lo <= hi
    ensures lo <= r <= hi
    ensures lo <= x <= hi ==> r == x
  {
    Max(lo, Min(hi, x))
  }

  /** Python's `float(x or default)`: a missing number and zero both fall back. */
  function OrDefault(x: Option<real>, default: real): real {
    if x.None? || x.value == 0.0 then default else x.value
  }

  predicate Distinct<T(==)>(s: seq<T>) {
    forall i, j :: 0 <= i < j < |s| ==> s[i] != s[j]
  }

  function Elements<T>(s: seq<T>): set<T> {
    set x | x in s
  }

  lemma HeadIsMember<T>(s: seq<T>)
    ensures s != [] ==> s[0] in s
  {
  }

  lemma ElementsStep<T>(s: seq<T>, i: nat)
    requires i < |s|
    ensures Elements(s[..i + 1]) == Elements(s[..i]) + {s[i]}
    ensures s[i] in Elements(s) && Elements(s[..i]) <= Elements(s)
  {
    assert s[..i + 1] == s[..i] + [s[i]];
  }

  lemma ElementsAll<T>(s: seq<T>)
    ensures Elements(s[..|s|]) == Elements(s) && Elements(s[..0]) == {}
    ensures forall i :: 0 <= i < |s| ==> s[i] in Elements(s)
  {
    assert s[..|s|] == s;
  }

  lemma AppendFresh<T>(s: seq<T>, x: T)
    requires Distinct(s) && x !in Elements(s)
    ensures Distinct(s + [x]) && Elements(s + [x]) == Elements(s) + {x}
  {
  }

  lemma {:induction false} DistinctSize<T>(s: seq<T>)
    requires Distinct(s)
    ensures |Elements(s)| == |s|
  {
    if s == [] {
      assert Elements(s) == {};
    } else {
      var n := |s| - 1;
      DistinctSize(s[..n]);
      ElementsStep(s, n);
      ElementsAll(s[..n]);
      assert s[..n + 1] == s;
      LastIsNew(s);
      hide Elements, Distinct;
    }
  }

  lemma LastIsNew<T>(s: seq<T>)
    requires Distinct(s) && s != []
    ensures s[|s| - 1] !in Elements(s[..|s| - 1])
  {
  }

  lemma PrefixStep<T>(s: seq<T>, j: nat)
    requires 0 < j <= |s|
    ensures s[..j] == s[..j - 1] + [s[j - 1]]
  {
  }

  lemma JoinOptional<T>(front: seq<T>, middle: seq<T>, x: T, back: seq<T>)
    requires middle == [x] || middle == []
    ensures front + middle + back == front + [x] + back || front + middle + back == front + back
  {
    if middle == [] {
      assert front + middle == front;
    }
  }

  // ---- text -------------------------------------------------------------

  function LowerChar(c: char): char {
    if 'A' <= c <= 'Z' then (c as int + 32) as char else c
  }

  function Lower(s: string): (r: string)
    ensures |r| == |s|
    ensures forall i :: 0 <= i < |s| ==> r[i] == LowerChar(s[i])
  {
    seq(|s|, i requires 0 <= i < |s| => LowerChar(s[i]))
  }

  predicate IsSpace(c: char) { c == ' ' || c == '\t' || c == '\n' || c == '\r' }

  function Strip(s: string): string {
    if s == [] then []
    else if IsSpace(s[0]) then Strip(s[1..])
    else if IsSpace(s[|s| - 1]) then Strip(s[..|s| - 1])
    else s
  }

  predicate White(s: string) { forall i :: 0 <= i < |s| ==> s[i] in {' ', '\t', '\n', '\r'} }

  /** White space around a text makes no difference. */
  lemma {:induction false} StripPadded(a: string, s: string, b: string)
    requires White(a) && White(b)
    ensures Strip(a + s + b) == Strip(s)
    decreases |a| + |s| + |b|
  {
    var t := a + s + b;
    if a != [] {
      assert t[0] == a[0] && t[1..] == a[1..] + s + b;
      StripPadded(a[1..], s, b);
    } else if s == [] {
      if b != [] {
        assert t == [] + b && t[0] == b[0] && t[1..] == b[1..] + [] + [];
        StripPadded(b[1..], [], []);
      }
    } else if IsSpace(s[0]) {
      assert t[0] == s[0] && t[1..] == [] + s[1..] + b;
      StripPadded([], s[1..], b);
    } else if b != [] {
      assert t[0] == s[0] && t[|t| - 1] == b[|b| - 1] && t[..|t| - 1] == [] + s + b[..|b| - 1];
      StripPadded([], s, b[..|b| - 1]);
    } else {
      assert t == s;
    }
  }

  predicate StartsWith(s: string, p: string) { p <= s }

  predicate EndsWith(s: string, p: string) {
    |p| <= |s| && s[|s| - |p|..] == p
  }

  predicate Contains(s: string, p: string) {
    exists i :: 0 <= i <= |s| && StartsWith(s[i..], p)
  }
}
