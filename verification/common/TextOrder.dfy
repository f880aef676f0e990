/** `sorted()` over a set of strings: the one strictly increasing listing. */
module TextOrder {
  import opened Basics

  /** Code point order. */
  predicate Less(a: string, b: string) {
    if b == [] then false
    else if a == [] then true
    else a[0] < b[0] || (a[0] == b[0] && Less(a[1..], b[1..]))
  }

  lemma {:induction false} LessTotal(a: string, b: string)
    ensures !Less(a, a)
    ensures Less(a, b) || a == b || Less(b, a)
    ensures !(Less(a, b) && Less(b, a))
  {
    if a != [] {
      LessTotal(a[1..], a[1..]);
      if b != [] {
        LessTotal(a[1..], b[1..]);
        assert a == [a[0]] + a[1..] && b == [b[0]] + b[1..];
      }
    }
  }

  lemma {:induction false} LessTransitive(a: string, b: string, c: string)
    requires Less(a, b) && Less(b, c)
    ensures Less(a, c)
  {
    if a != [] && a[0] == b[0] == c[0] {
      LessTransitive(a[1..], b[1..], c[1..]);
    }
  }

  predicate Increasing(s: seq<string>) {
    forall i, j :: 0 <= i < j < |s| ==> Less(s[i], s[j])
  }

  function Insert(x: string, s: seq<string>): seq<string> {
    if s == [] then [x]
    else if x == s[0] then s
    else if Less(x, s[0]) then [x] + s
    else [s[0]] + Insert(x, s[1..])
  }

  lemma {:induction false} InsertIs(x: string, s: seq<string>)
    requires Increasing(s)
    ensures Increasing(Insert(x, s)) && forall y :: y in Insert(x, s) <==> y == x || y in s
  {
    hide Less;
    if s != [] {
      LessTotal(x, s[0]);
      if x != s[0] && !Less(x, s[0]) {
        InsertIs(x, s[1..]);
        assert s == [s[0]] + s[1..];
        HeadLess(s);
        ConsIncreasing(s[0], Insert(x, s[1..]));
      } else if x != s[0] {
        forall y | y in s ensures Less(x, y) {
          var i :| 0 <= i < |s| && s[i] == y;
          if i > 0 {
            LessTransitive(x, s[0], y);
          }
        }
        ConsIncreasing(x, s);
      }
    }
  }

  lemma HeadLess(s: seq<string>)
    requires Increasing(s) && s != []
    ensures Increasing(s[1..]) && forall y :: y in s[1..] ==> Less(s[0], y)
  {
  }

  lemma ConsIncreasing(x: string, s: seq<string>)
    requires Increasing(s) && forall y :: y in s ==> Less(x, y)
    ensures Increasing([x] + s)
  {
    var t := [x] + s;
    forall i, j | 0 <= i < j < |t| ensures Less(t[i], t[j]) {
      assert t[j] in s;
    }
  }

  /** `ids` without repetitions, in order. */
  function Sorted(ids: seq<string>): seq<string> {
    if ids == [] then [] else Insert(ids[|ids| - 1], Sorted(ids[..|ids| - 1]))
  }

  lemma {:induction false} SortedIs(ids: seq<string>)
    ensures Increasing(Sorted(ids)) && forall y :: y in Sorted(ids) <==> y in ids
  {
    hide Increasing, Insert;
    if ids == [] {
      EmptyIncreasing();
    } else {
      var front := ids[..|ids| - 1];
      assert ids == front + [ids[|ids| - 1]];
      SortedIs(front);
      InsertIs(ids[|ids| - 1], Sorted(front));
    }
  }

  lemma EmptyIncreasing()
    ensures Increasing([])
  {
  }

  /** There is one increasing listing of a set. */
  lemma {:induction false} IncreasingUnique(s: seq<string>, t: seq<string>)
    requires Increasing(s) && Increasing(t) && forall y :: y in s <==> y in t
    ensures s == t
  {
    hide Less;
    if s == [] || t == [] {
      HeadIsMember(s);
      HeadIsMember(t);
    } else {
      SameHead(s, t);
      HeadLess(s);
      HeadLess(t);
      LessTotal(s[0], s[0]);
      assert s == [s[0]] + s[1..] && t == [t[0]] + t[1..];
      forall y ensures y in s[1..] <==> y in t[1..] {
        assert y in s[1..] ==> y in s;
        assert y in t[1..] ==> y in t;
      }
      IncreasingUnique(s[1..], t[1..]);
    }
  }

  lemma SameHead(s: seq<string>, t: seq<string>)
    requires Increasing(s) && Increasing(t) && s != [] && t != [] && forall y :: y in s <==> y in t
    ensures s[0] == t[0]
  {
    hide Less;
    HeadIsMember(s);
    HeadIsMember(t);
    var i :| 0 <= i < |s| && s[i] == t[0];
    var j :| 0 <= j < |t| && t[j] == s[0];
    if i > 0 && j > 0 {
      LessTotal(s[0], t[0]);
    }
  }

  /** Listing the keys of a dictionary in order. */
  method SortKeys<V>(m: map<string, V>) returns (ids: seq<string>)
    ensures Increasing(ids) && forall y :: y in ids <==> y in m
  {
    hide Insert, Increasing;
    EmptyIncreasing();
    ids := [];
    var left := m.Keys;
    while left != {}
      invariant left <= m.Keys && Increasing(ids)
      invariant forall y :: y in ids <==> y in m.Keys - left
      decreases |left|
    {
      var k :| k in left;
      InsertIs(k, ids);
      ids := Insert(k, ids);
      left := left - {k};
    }
  }
}
