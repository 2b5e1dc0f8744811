/** `ORDER BY` on text columns and `SELECT DISTINCT`. SQLite's default BINARY collation
    compares text code point by code point, a proper prefix coming first. */
module Order {

  /** `a` sorts no later than `b` under the BINARY collation. */
  predicate StrLe(a: string, b: string) {
    a == [] || (b != [] && (a[0] < b[0] || (a[0] == b[0] && StrLe(a[1..], b[1..]))))
  }

  lemma {:induction false} StrLeRefl(a: string)
    ensures StrLe(a, a)
  {
    if a != [] {
      StrLeRefl(a[1..]);
    }
  }

  lemma {:induction false} StrLeTotal(a: string, b: string)
    ensures StrLe(a, b) || StrLe(b, a)
  {
    if a != [] && b != [] && a[0] == b[0] {
      StrLeTotal(a[1..], b[1..]);
    }
  }

  lemma {:induction false} StrLeTrans(a: string, b: string, c: string)
    requires StrLe(a, b) && StrLe(b, c)
    ensures StrLe(a, c)
  {
    if a != [] && a[0] == b[0] && b[0] == c[0] {
      StrLeTrans(a[1..], b[1..], c[1..]);
    }
  }

  lemma {:induction false} StrLeAntisym(a: string, b: string)
    requires StrLe(a, b) && StrLe(b, a)
    ensures a == b
  {
    if a != [] {
      StrLeAntisym(a[1..], b[1..]);
      assert a == [a[0]] + a[1..];
      assert b == [b[0]] + b[1..];
    }
  }

  /** The order of `ORDER BY ... ASC` (`desc` false) or `ORDER BY ... DESC` (`desc` true). */
  predicate InOrder(a: string, b: string, desc: bool) {
    if desc then StrLe(b, a) else StrLe(a, b)
  }

  lemma InOrderTotal(a: string, b: string, desc: bool)
    ensures InOrder(a, b, desc) || InOrder(b, a, desc)
  {
    StrLeTotal(a, b);
  }

  lemma InOrderTrans(a: string, b: string, c: string, desc: bool)
    requires InOrder(a, b, desc) && InOrder(b, c, desc)
    ensures InOrder(a, c, desc)
  {
    if desc {
      StrLeTrans(c, b, a);
    } else {
      StrLeTrans(a, b, c);
    }
  }

  lemma InOrderAntisym(a: string, b: string, desc: bool)
    requires InOrder(a, b, desc) && InOrder(b, a, desc)
    ensures a == b
  {
    StrLeAntisym(a, b);
  }

  /** Every earlier element's key sorts no later than every later element's key. */
  predicate SortedBy<T>(s: seq<T>, key: T -> string, desc: bool) {
    forall i, j :: 0 <= i < j < |s| ==> InOrder(key(s[i]), key(s[j]), desc)
  }

  /** `x` placed before the first element of `s` whose key it may precede. */
  function InsertBy<T>(x: T, s: seq<T>, key: T -> string, desc: bool): seq<T>
  {
    if s == [] || InOrder(key(x), key(s[0]), desc) then [x] + s
    else [s[0]] + InsertBy(x, s[1..], key, desc)
  }

  /** The rows of `s` in the order `ORDER BY key` puts them; rows with equal keys keep
      their relative order, which is one of the orders SQLite may return. */
  function SortBy<T>(s: seq<T>, key: T -> string, desc: bool): seq<T>
  {
    if s == [] then [] else InsertBy(s[0], SortBy(s[1..], key, desc), key, desc)
  }

  lemma {:induction false} InsertByMultiset<T>(x: T, s: seq<T>, key: T -> string, desc: bool)
    ensures multiset(InsertBy(x, s, key, desc)) == multiset(s) + multiset{x}
  {
    if s != [] && !InOrder(key(x), key(s[0]), desc) {
      InsertByMultiset(x, s[1..], key, desc);
      assert s == [s[0]] + s[1..];
    }
  }

  /** Every element after the head of a sorted sequence sorts no earlier than the head. */
  lemma HeadFirst<T>(s: seq<T>, key: T -> string, desc: bool, e: T)
    requires SortedBy(s, key, desc) && s != [] && e in s[1..]
    ensures InOrder(key(s[0]), key(e), desc)
  {
    var k :| 0 <= k < |s[1..]| && s[1..][k] == e;
    assert s[k + 1] == e;
  }

  /** A sorted sequence stays sorted with an element in front that sorts no later than its head. */
  lemma SortedCons<T>(x: T, s: seq<T>, key: T -> string, desc: bool)
    requires SortedBy(s, key, desc)
    requires s == [] || InOrder(key(x), key(s[0]), desc)
    ensures SortedBy([x] + s, key, desc)
  {
    var r := [x] + s;
    forall i, j | 0 <= i < j < |r|
      ensures InOrder(key(r[i]), key(r[j]), desc)
    {
      if i == 0 && j > 1 {
        InOrderTrans(key(x), key(s[0]), key(s[j - 1]), desc);
      } else if i > 0 {
        assert r[i] == s[i - 1] && r[j] == s[j - 1];
      }
    }
  }

  /** A sorted sequence stays sorted with an element in front that sorts no later than any
      of its elements. */
  lemma SortedConsAll<T>(x: T, s: seq<T>, key: T -> string, desc: bool)
    requires SortedBy(s, key, desc)
    requires forall e :: e in s ==> InOrder(key(x), key(e), desc)
    ensures SortedBy([x] + s, key, desc)
  {
    if s != [] {
      assert s[0] in s;
    }
    SortedCons(x, s, key, desc);
  }

  lemma {:induction false} InsertBySorted<T>(x: T, s: seq<T>, key: T -> string, desc: bool)
    requires SortedBy(s, key, desc)
    ensures SortedBy(InsertBy(x, s, key, desc), key, desc)
    ensures multiset(InsertBy(x, s, key, desc)) == multiset(s) + multiset{x}
  {
    InsertByMultiset(x, s, key, desc);
    if s == [] || InOrder(key(x), key(s[0]), desc) {
      SortedCons(x, s, key, desc);
    } else {
      InOrderTotal(key(x), key(s[0]), desc);
      var rest := InsertBy(x, s[1..], key, desc);
      assert SortedBy(s[1..], key, desc) by {
        forall i, j | 0 <= i < j < |s[1..]|
          ensures InOrder(key(s[1..][i]), key(s[1..][j]), desc)
        {
          assert s[1..][i] == s[i + 1] && s[1..][j] == s[j + 1];
        }
      }
      InsertBySorted(x, s[1..], key, desc);
      forall e | e in rest
        ensures InOrder(key(s[0]), key(e), desc)
      {
        assert e in multiset(rest);
        if e != x {
          assert e in multiset(s[1..]);
          HeadFirst(s, key, desc, e);
        }
      }
      SortedConsAll(s[0], rest, key, desc);
    }
  }

  /** `SortBy` is sorted and holds the same rows, each as often as before. */
  lemma {:induction false} SortBySorted<T>(s: seq<T>, key: T -> string, desc: bool)
    ensures SortedBy(SortBy(s, key, desc), key, desc)
    ensures multiset(SortBy(s, key, desc)) == multiset(s)
  {
    if s != [] {
      SortBySorted(s[1..], key, desc);
      InsertBySorted(s[0], SortBy(s[1..], key, desc), key, desc);
      assert s == [s[0]] + s[1..];
    }
  }

  /** Adjacent repetitions dropped; on a sorted sequence this is `SELECT DISTINCT`. */
  function Dedup(s: seq<string>): seq<string>
  {
    if |s| <= 1 then s
    else if s[0] == s[1] then Dedup(s[1..])
    else [s[0]] + Dedup(s[1..])
  }

  /** Every earlier element sorts strictly before every later one. */
  predicate StrictlySorted(s: seq<string>, desc: bool) {
    forall i, j :: 0 <= i < j < |s| ==> s[i] != s[j] && InOrder(s[i], s[j], desc)
  }

  function Self(s: string): string {
    s
  }

  /** Dropping repetitions from a sorted sequence leaves each value once, still in order. */
  lemma {:induction false} DedupDistinct(s: seq<string>, desc: bool)
    requires SortedBy(s, Self, desc)
    ensures StrictlySorted(Dedup(s), desc)
    ensures forall y :: y in Dedup(s) <==> y in s
  {
    if |s| > 1 {
      var tail := s[1..];
      assert SortedBy(tail, Self, desc) by {
        forall i, j | 0 <= i < j < |tail|
          ensures InOrder(Self(tail[i]), Self(tail[j]), desc)
        {
          assert tail[i] == s[i + 1] && tail[j] == s[j + 1];
        }
      }
      DedupDistinct(tail, desc);
      assert s == [s[0]] + tail;
      if s[0] == s[1] {
        assert s[0] in tail;
      } else {
        var d := Dedup(tail);
        var r := [s[0]] + d;
        forall i, j | 0 <= i < j < |r|
          ensures r[i] != r[j] && InOrder(r[i], r[j], desc)
        {
          if i == 0 {
            var e := d[j - 1];
            assert e in d;
            var k :| 0 <= k < |tail| && tail[k] == e;
            assert Self(s[0]) == s[0] && Self(s[k + 1]) == e;
            assert InOrder(s[0], e, desc);
            if s[0] == e {
              assert InOrder(Self(s[0]), Self(s[1]), desc);
              if k > 0 {
                assert InOrder(Self(s[1]), Self(s[k + 1]), desc);
              }
              InOrderAntisym(s[0], s[1], desc);
            }
          } else {
            assert r[i] == d[i - 1] && r[j] == d[j - 1];
          }
        }
        assert Dedup(s) == r;
      }
    }
  }
}
