/** `Array.prototype.sort` with a comparator, which ECMAScript requires to be
    stable. The sort is modelled by insertion sort, together with the proof that
    a stable sort's output is unique: every sorted permutation that keeps tied
    elements in their input order IS the output of `StableSort`. */
module Sorting {
  import opened Seqs

  /** `le(a, b)`: `a` may stand before `b`. */
  ghost predicate TotalPreorder<T(!new)>(le: (T, T) -> bool) {
    && (forall a, b :: le(a, b) || le(b, a))
    && (forall a, b, c :: le(a, b) && le(b, c) ==> le(a, c))
  }

  ghost predicate SortedBy<T(!new)>(s: seq<T>, le: (T, T) -> bool) {
    forall i, j :: 0 <= i < j < |s| ==> le(s[i], s[j])
  }

  /** Neither of `a` and `b` must come before the other: the comparator returns 0. */
  predicate Tied<T(!new)>(le: (T, T) -> bool, a: T, b: T) {
    le(a, b) && le(b, a)
  }

  function TiedWith<T(!new)>(le: (T, T) -> bool, k: T): T -> bool {
    (x: T) => Tied(le, x, k)
  }

  /** The elements of `s` tied with `k`, in their order in `s`. A sort is stable
      when it leaves `Ties(_, k, le)` unchanged for every `k`. */
  function Ties<T(!new)>(s: seq<T>, k: T, le: (T, T) -> bool): seq<T> {
    Filter(s, TiedWith(le, k))
  }

  /** `x` inserted before the first element it may precede. */
  function Insert<T(!new)>(x: T, s: seq<T>, le: (T, T) -> bool): (r: seq<T>)
    ensures multiset(r) == multiset{x} + multiset(s)
  {
    if s == [] || le(x, s[0]) then [x] + s
    else
      assert s == [s[0]] + s[1..];
      [s[0]] + Insert(x, s[1..], le)
  }

  function StableSort<T(!new)>(s: seq<T>, le: (T, T) -> bool): (r: seq<T>)
    ensures multiset(r) == multiset(s)
  {
    if s == [] then []
    else
      assert s == [s[0]] + s[1..];
      Insert(s[0], StableSort(s[1..], le), le)
  }

  lemma {:induction false} InsertSorted<T(!new)>(x: T, s: seq<T>, le: (T, T) -> bool)
    requires TotalPreorder(le) && SortedBy(s, le)
    ensures SortedBy(Insert(x, s, le), le)
  {
    if s != [] && !le(x, s[0]) {
      var rest := Insert(x, s[1..], le);
      InsertSorted(x, s[1..], le);
      forall j | 0 <= j < |rest|
        ensures le(s[0], rest[j])
      {
        assert rest[j] in multiset{x} + multiset(s[1..]);
        if rest[j] != x {
          var m :| 0 <= m < |s[1..]| && s[1..][m] == rest[j];
          assert s[m + 1] == rest[j];
        }
      }
      assert Insert(x, s, le) == [s[0]] + rest;
    }
  }

  /** The ascending output is sorted. */
  lemma {:induction false} StableSortSorted<T(!new)>(s: seq<T>, le: (T, T) -> bool)
    requires TotalPreorder(le)
    ensures SortedBy(StableSort(s, le), le)
  {
    if s != [] {
      StableSortSorted(s[1..], le);
      InsertSorted(s[0], StableSort(s[1..], le), le);
    }
  }

  lemma {:induction false} InsertTies<T(!new)>(x: T, s: seq<T>, k: T, le: (T, T) -> bool)
    requires TotalPreorder(le)
    ensures Ties(Insert(x, s, le), k, le) == (if Tied(le, x, k) then [x] else []) + Ties(s, k, le)
  {
    var p := TiedWith(le, k);
    if s == [] || le(x, s[0]) {
      assert ([x] + s)[1..] == s;
    } else {
      var rest := Insert(x, s[1..], le);
      InsertTies(x, s[1..], k, le);
      assert ([s[0]] + rest)[1..] == rest;
      assert s == [s[0]] + s[1..];
      if Tied(le, x, k) {
        assert !p(s[0]);
      }
    }
  }

  /** The sort is stable: tied elements keep their input order. */
  lemma {:induction false} StableSortKeepsTies<T(!new)>(s: seq<T>, k: T, le: (T, T) -> bool)
    requires TotalPreorder(le)
    ensures Ties(StableSort(s, le), k, le) == Ties(s, k, le)
  {
    if s != [] {
      StableSortKeepsTies(s[1..], k, le);
      InsertTies(s[0], StableSort(s[1..], le), k, le);
    }
  }

  /** Two sorted sequences with the same tied runs are equal. */
  lemma {:induction false} TiesDetermine<T(!new)>(r1: seq<T>, r2: seq<T>, le: (T, T) -> bool)
    requires TotalPreorder(le) && SortedBy(r1, le) && SortedBy(r2, le)
    requires forall k :: Ties(r1, k, le) == Ties(r2, k, le)
    ensures r1 == r2
  {
    if r1 == [] || r2 == [] {
      var r := if r1 == [] then r2 else r1;
      if r != [] {
        TiedWithSelf(r, le);
        assert false;
      }
    } else {
      var a, b := r1[0], r2[0];
      assert b in Ties(r1, b, le) by {
        assert Ties(r2, b, le) == [b] + Ties(r2[1..], b, le);
      }
      assert a in Ties(r2, a, le) by {
        assert Ties(r1, a, le) == [a] + Ties(r1[1..], a, le);
      }
      assert le(a, b) by {
        var m :| 0 <= m < |r1| && r1[m] == b;
      }
      assert le(b, a) by {
        var m :| 0 <= m < |r2| && r2[m] == a;
      }
      assert Ties(r1, a, le)[0] == a;
      assert Ties(r2, a, le)[0] == b;
      forall k
        ensures Ties(r1[1..], k, le) == Ties(r2[1..], k, le)
      {
        assert Ties(r1, k, le) == Ties(r2, k, le);
      }
      TiesDetermine(r1[1..], r2[1..], le);
      assert r1 == [a] + r1[1..] && r2 == [b] + r2[1..];
    }
  }

  /** The first element of a non-empty sequence is among the ones tied with it. */
  lemma TiedWithSelf<T(!new)>(r: seq<T>, le: (T, T) -> bool)
    requires TotalPreorder(le) && r != []
    ensures Ties(r, r[0], le) != []
  {
    assert Tied(le, r[0], r[0]);
  }

  /** Whatever algorithm produced it, a sorted sequence that keeps every tied run
      of `s` is the output of `StableSort` on `s`. */
  lemma StableSortUnique<T(!new)>(s: seq<T>, r: seq<T>, le: (T, T) -> bool)
    requires TotalPreorder(le) && SortedBy(r, le)
    requires forall k :: Ties(r, k, le) == Ties(s, k, le)
    ensures r == StableSort(s, le)
  {
    StableSortSorted(s, le);
    forall k
      ensures Ties(r, k, le) == Ties(StableSort(s, le), k, le)
    {
      StableSortKeepsTies(s, k, le);
    }
    TiesDetermine(r, StableSort(s, le), le);
  }

  /** Reversing the ascending output puts every tied run in reverse input order. */
  lemma ReverseTies<T(!new)>(s: seq<T>, k: T, le: (T, T) -> bool)
    requires TotalPreorder(le)
    ensures Ties(Reverse(StableSort(s, le)), k, le) == Reverse(Ties(s, k, le))
  {
    FilterReverse(StableSort(s, le), TiedWith(le, k));
    StableSortKeepsTies(s, k, le);
  }
}
