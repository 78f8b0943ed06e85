/** The order of texts by their characters. */
module Ordering {
  predicate TextLe(a: string, b: string) {
    a == "" || (b != "" && (a[0] < b[0] || (a[0] == b[0] && TextLe(a[1..], b[1..]))))
  }

  lemma {:induction false} TextLeOrder(a: string, b: string, c: string)
    ensures TextLe(a, a)
    ensures TextLe(a, b) || TextLe(b, a)
    ensures TextLe(a, b) && TextLe(b, a) ==> a == b
    ensures TextLe(a, b) && TextLe(b, c) ==> TextLe(a, c)
  {
    if a != "" {
      TextLeOrder(a[1..], if b == "" then "" else b[1..], if c == "" then "" else c[1..]);
      assert a == [a[0]] + a[1..];
      if b != "" {
        assert b == [b[0]] + b[1..];
      }
    }
  }

  predicate InOrder(s: seq<string>) {
    forall i, j :: 0 <= i < j < |s| ==> TextLe(s[i], s[j])
  }

  function Insert(x: string, s: seq<string>): seq<string> {
    if s == [] || TextLe(x, s[0]) then [x] + s else [s[0]] + Insert(x, s[1..])
  }

  /** `sorted`. */
  function Sorted(s: seq<string>): seq<string> {
    if s == [] then [] else Insert(s[0], Sorted(s[1..]))
  }

  lemma {:induction false} InsertSorts(x: string, s: seq<string>)
    requires InOrder(s)
    ensures InOrder(Insert(x, s)) && multiset(Insert(x, s)) == multiset(s) + multiset{x}
  {
    if s == [] {
    } else if TextLe(x, s[0]) {
      forall j | 0 <= j < |s|
        ensures TextLe(x, s[j])
      {
        TextLeOrder(x, s[0], s[j]);
        TextLeOrder(s[0], x, x);
      }
    } else {
      InsertSorts(x, s[1..]);
      TextLeOrder(x, s[0], x);
      assert s == [s[0]] + s[1..];
      forall y | y in Insert(x, s[1..])
        ensures TextLe(s[0], y)
      {
        assert y in multiset(Insert(x, s[1..]));
        assert y == x || y in s[1..];
      }
    }
  }

  lemma {:induction false} SortedSorts(s: seq<string>)
    ensures InOrder(Sorted(s)) && multiset(Sorted(s)) == multiset(s)
  {
    if s != [] {
      SortedSorts(s[1..]);
      InsertSorts(s[0], Sorted(s[1..]));
      assert s == [s[0]] + s[1..];
    }
  }

  lemma HeadIsLeast(a: seq<string>, x: string)
    requires InOrder(a) && x in multiset(a)
    ensures a != [] && TextLe(a[0], x)
  {
    assert x in a;
    TextLeOrder(x, x, x);
  }

  lemma TailOf(a: seq<string>)
    requires a != [] && InOrder(a)
    ensures a[0] in multiset(a) && InOrder(a[1..]) && multiset(a[1..]) == multiset(a) - multiset{a[0]}
  {
    hide TextLe;
    assert a == [a[0]] + a[1..];
  }

  lemma {:induction false} OrderedOnce(a: seq<string>, b: seq<string>)
    requires InOrder(a) && InOrder(b) && multiset(a) == multiset(b)
    ensures a == b
  {
    hide TextLe, InOrder;
    assert |multiset(a)| == |a| && |multiset(b)| == |b|;
    if a != [] {
      TailOf(a);
      TailOf(b);
      HeadIsLeast(b, a[0]);
      HeadIsLeast(a, b[0]);
      TextLeOrder(a[0], b[0], a[0]);
      OrderedOnce(a[1..], b[1..]);
      assert a == [a[0]] + a[1..] && b == [b[0]] + b[1..];
    }
  }

  /** Sorting forgets the order and nothing else. */
  lemma SortedSame(a: seq<string>, b: seq<string>)
    ensures Sorted(a) == Sorted(b) <==> multiset(a) == multiset(b)
  {
    SortedSorts(a);
    SortedSorts(b);
    if multiset(a) == multiset(b) {
      OrderedOnce(Sorted(a), Sorted(b));
    }
  }

  predicate IsLeast(s: set<string>, x: string) {
    x in s && forall y :: y in s ==> TextLe(x, y)
  }

  lemma {:induction false} LeastExists(s: set<string>)
    requires s != {}
    ensures exists x :: IsLeast(s, x)
    decreases |s|
  {
    var x :| x in s;
    TextLeOrder(x, x, x);
    if s == {x} {
      assert IsLeast(s, x);
    } else {
      assert s == (s - {x}) + {x};
      LeastExists(s - {x});
      var y :| IsLeast(s - {x}, y);
      TextLeOrder(x, y, x);
      if TextLe(x, y) {
        forall z | z in s
          ensures TextLe(x, z)
        {
          TextLeOrder(x, y, z);
        }
        assert IsLeast(s, x);
      } else {
        assert IsLeast(s, y);
      }
    }
  }
}
