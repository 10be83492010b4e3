/** The SQL query shapes the models use, over a table held as a sequence of rows in
    insertion order: `WHERE` (Filter), `rows[0]` of a `WHERE` (FindFirst) and
    `ORDER BY key DESC` (SortDesc), plus the SERIAL id invariant of a table. */
module Tables {
  import opened Base

  /** `WHERE p`: the rows satisfying `p`, in table order. */
  function Filter<T(!new)>(p: T -> bool, s: seq<T>): (r: seq<T>)
    ensures |r| <= |s|
    ensures forall x :: x in r <==> x in s && p(x)
  {
    if s == [] then []
    else
      var rest := Filter(p, s[1..]);
      assert s == [s[0]] + s[1..];
      if p(s[0]) then [s[0]] + rest else rest
  }

  /** Filtering distributes over concatenation (a new row is judged on its own). */
  lemma {:induction false} FilterAppend<T(!new)>(p: T -> bool, a: seq<T>, b: seq<T>)
    ensures Filter(p, a + b) == Filter(p, a) + Filter(p, b)
  {
    if a == [] {
      assert a + b == b;
    } else {
      assert (a + b)[1..] == a[1..] + b;
      FilterAppend(p, a[1..], b);
    }
  }

  /** Filtering by `q` a sequence already filtered by `p` is filtering by `p` and `q`. */
  lemma {:induction false} FilterFilter<T(!new)>(p: T -> bool, q: T -> bool, pq: T -> bool, s: seq<T>)
    requires forall x :: pq(x) == (p(x) && q(x))
    ensures Filter(q, Filter(p, s)) == Filter(pq, s)
  {
    if s != [] {
      FilterFilter(p, q, pq, s[1..]);
    }
  }

  /** Filtering by a predicate that every row meets changes nothing. */
  lemma {:induction false} FilterAll<T(!new)>(p: T -> bool, s: seq<T>)
    requires forall x :: x in s ==> p(x)
    ensures Filter(p, s) == s
  {
    if s != [] {
      FilterAll(p, s[1..]);
    }
  }

  /** Every row is kept by `p` or by its negation, never both. */
  lemma {:induction false} FilterSplit<T(!new)>(p: T -> bool, notP: T -> bool, s: seq<T>)
    requires forall x :: notP(x) == !p(x)
    ensures |Filter(p, s)| + |Filter(notP, s)| == |s|
  {
    if s != [] {
      FilterSplit(p, notP, s[1..]);
    }
  }

  /** `rows[0]` of a `WHERE p` query: the first row satisfying `p`, if any. */
  function FindFirst<T(!new)>(p: T -> bool, s: seq<T>): (r: Option<T>)
    ensures r.None? <==> forall x :: x in s ==> !p(x)
    ensures r.Some? ==> r.value in s && p(r.value)
    ensures r.Some? ==> exists i :: 0 <= i < |s| && s[i] == r.value && forall j :: 0 <= j < i ==> !p(s[j])
  {
    if s == [] then None
    else if p(s[0]) then Some(s[0])
    else
      var r := FindFirst(p, s[1..]);
      assert r.Some? ==> exists i :: 0 <= i < |s| && s[i] == r.value && forall j :: 0 <= j < i ==> !p(s[j]) by {
        if r.Some? {
          var i :| 0 <= i < |s[1..]| && s[1..][i] == r.value && forall j :: 0 <= j < i ==> !p(s[1..][j]);
          assert s[i + 1] == r.value;
          assert forall j :: 0 <= j < i + 1 ==> !p(s[j]) by {
            forall j | 0 <= j < i + 1 ensures !p(s[j]) {
              if j > 0 {
                assert s[j] == s[1..][j - 1];
              }
            }
          }
        }
      }
      r
  }

  /** The first match is the head of the filtered rows. */
  lemma {:induction false} FindFirstIsFilterHead<T(!new)>(p: T -> bool, s: seq<T>)
    ensures FindFirst(p, s) == if Filter(p, s) == [] then None else Some(Filter(p, s)[0])
  {
    if s != [] && !p(s[0]) {
      FindFirstIsFilterHead(p, s[1..]);
    }
  }

  /** Dropping rows that no match could be does not change the first match. */
  lemma {:induction false} FindFirstFiltered<T(!new)>(p: T -> bool, q: T -> bool, s: seq<T>)
    requires forall x :: p(x) ==> q(x)
    ensures FindFirst(p, Filter(q, s)) == FindFirst(p, s)
  {
    if s != [] {
      FindFirstFiltered(p, q, s[1..]);
      FilterHead(q, s);
      FindFirstHead(p, s);
      if q(s[0]) {
        FindFirstCons(p, s[0], Filter(q, s[1..]));
      } else {
        assert Filter(q, s) == Filter(q, s[1..]);
      }
    }
  }

  /** The first match of a non-empty sequence is its head, when the head matches, and
      otherwise the first match of its tail. */
  lemma FindFirstHead<T(!new)>(p: T -> bool, s: seq<T>)
    requires s != []
    ensures FindFirst(p, s) == if p(s[0]) then Some(s[0]) else FindFirst(p, s[1..])
  {
  }

  /** `FindFirstHead` for a sequence written as a head and a tail. */
  lemma FindFirstCons<T(!new)>(p: T -> bool, h: T, t: seq<T>)
    ensures FindFirst(p, [h] + t) == if p(h) then Some(h) else FindFirst(p, t)
  {
    FindFirstHead(p, [h] + t);
    assert ([h] + t)[1..] == t;
  }

  /** Keys never increase from left to right. */
  predicate Descending<T(!new)>(s: seq<T>, key: T -> int)
  {
    forall i, j :: 0 <= i < j < |s| ==> key(s[i]) >= key(s[j])
  }

  /** The tail of a sorted sequence is sorted. */
  lemma DescendingTail<T(!new)>(s: seq<T>, key: T -> int)
    requires Descending(s, key) && s != []
    ensures Descending(s[1..], key)
  {
    forall i, j | 0 <= i < j < |s| - 1 ensures key(s[1..][i]) >= key(s[1..][j]) {
      assert s[1..][i] == s[i + 1] && s[1..][j] == s[j + 1];
    }
  }

  /** A row whose key is no smaller than any key of a sorted sequence can head it. */
  lemma ConsDescending<T(!new)>(h: T, t: seq<T>, key: T -> int)
    requires Descending(t, key)
    requires forall y :: y in t ==> key(y) <= key(h)
    ensures Descending([h] + t, key)
  {
    var r := [h] + t;
    forall i, j | 0 <= i < j < |r| ensures key(r[i]) >= key(r[j]) {
      assert r[j] == t[j - 1];
      if i > 0 {
        assert r[i] == t[i - 1];
      } else {
        assert t[j - 1] in t;
      }
    }
  }

  /** Places `x` before the first row whose key is not greater than its own. */
  function Insert<T(!new)>(x: T, s: seq<T>, key: T -> int): (r: seq<T>)
    requires Descending(s, key)
    ensures Descending(r, key)
    ensures multiset(r) == multiset(s) + multiset{x}
    ensures |r| == |s| + 1
  {
    if s == [] || key(s[0]) <= key(x) then
      InsertedInFront(x, s, key);
      [x] + s
    else
      DescendingTail(s, key);
      var rest := Insert(x, s[1..], key);
      InsertedBehind(x, s, rest, key);
      [s[0]] + rest
  }

  /** Putting a row no smaller than the first in front keeps the order and adds the row. */
  lemma InsertedInFront<T(!new)>(x: T, s: seq<T>, key: T -> int)
    requires Descending(s, key)
    requires s == [] || key(s[0]) <= key(x)
    ensures Descending([x] + s, key)
    ensures multiset([x] + s) == multiset(s) + multiset{x}
  {
    if s != [] {
      SortedHeadIsMax(s, key);
    }
    ConsDescending(x, s, key);
  }

  /** Keeping the head in front of a sorted insertion into the tail keeps the order and adds
      the row. */
  lemma InsertedBehind<T(!new)>(x: T, s: seq<T>, rest: seq<T>, key: T -> int)
    requires Descending(s, key) && s != [] && key(x) < key(s[0])
    requires Descending(rest, key) && multiset(rest) == multiset(s[1..]) + multiset{x}
    ensures Descending([s[0]] + rest, key)
    ensures multiset([s[0]] + rest) == multiset(s) + multiset{x}
  {
    assert s == [s[0]] + s[1..];
    SortedHeadIsMax(s, key);
    forall y | y in rest ensures key(y) <= key(s[0]) {
      assert y in multiset(rest);
      if y != x {
        assert y in s[1..];
      }
    }
    ConsDescending(s[0], rest, key);
  }

  /** `ORDER BY key DESC`: the same rows, keys never increasing; rows with equal keys keep
      their table order. */
  function SortDesc<T(!new)>(s: seq<T>, key: T -> int): (r: seq<T>)
    ensures Descending(r, key)
    ensures multiset(r) == multiset(s)
    ensures |r| == |s|
  {
    if s == [] then []
    else
      assert s == [s[0]] + s[1..];
      Insert(s[0], SortDesc(s[1..], key), key)
  }

  /** A sorted sequence's first row has a key no smaller than any row's. */
  lemma SortedHeadIsMax<T(!new)>(s: seq<T>, key: T -> int)
    requires Descending(s, key) && s != []
    ensures forall x :: x in s ==> key(x) <= key(s[0])
  {
    forall x | x in s ensures key(x) <= key(s[0]) {
      var j :| 0 <= j < |s| && s[j] == x;
    }
  }

  /** Filtering a sequence with a given head judges the head on its own. */
  lemma FilterCons<T(!new)>(q: T -> bool, h: T, t: seq<T>)
    ensures Filter(q, [h] + t) == (if q(h) then [h] else []) + Filter(q, t)
  {
    assert ([h] + t)[1..] == t;
  }

  /** Filtering after inserting at the front is inserting at the front after filtering. */
  lemma FilterInsertFront<T(!new)>(q: T -> bool, x: T, s: seq<T>, key: T -> int)
    requires Descending(s, key)
    requires Descending(Filter(q, s), key)
    requires s == [] || key(s[0]) <= key(x)
    ensures Filter(q, Insert(x, s, key)) == if q(x) then Insert(x, Filter(q, s), key) else Filter(q, s)
  {
    InsertAtFront(x, s, key);
    FilterCons(q, x, s);
    if q(x) {
      var fs := Filter(q, s);
      if fs != [] {
        FilterHeadKey(q, s, key);
      }
      InsertAtFront(x, fs, key);
    }
  }

  /** A row whose key is no smaller than the first key goes in front. */
  lemma InsertAtFront<T(!new)>(x: T, s: seq<T>, key: T -> int)
    requires Descending(s, key)
    requires s == [] || key(s[0]) <= key(x)
    ensures Insert(x, s, key) == [x] + s
  {
  }

  /** The first row a filter keeps from a sorted sequence has a key no greater than the
      sequence's first key. */
  lemma FilterHeadKey<T(!new)>(q: T -> bool, s: seq<T>, key: T -> int)
    requires Descending(s, key) && Filter(q, s) != []
    ensures key(Filter(q, s)[0]) <= key(s[0])
  {
    assert Filter(q, s)[0] in s;
    SortedHeadIsMax(s, key);
  }

  /** Filtering after an insertion is inserting after the filtering. */
  lemma {:induction false} FilterInsert<T(!new)>(q: T -> bool, x: T, s: seq<T>, key: T -> int)
    requires Descending(s, key)
    ensures Descending(Filter(q, s), key)
    ensures Filter(q, Insert(x, s, key)) == if q(x) then Insert(x, Filter(q, s), key) else Filter(q, s)
  {
    FilterKeepsDescending(q, s, key);
    if s == [] || key(s[0]) <= key(x) {
      FilterInsertFront(q, x, s, key);
    } else {
      FilterInsert(q, x, s[1..], key);
      FilterInsertBehind(q, x, s, key);
    }
  }

  /** The step of `FilterInsert` where the new element goes behind the head. */
  lemma FilterInsertBehind<T(!new)>(q: T -> bool, x: T, s: seq<T>, key: T -> int)
    requires Descending(s, key) && s != [] && key(x) < key(s[0])
    requires Descending(Filter(q, s), key) && Descending(Filter(q, s[1..]), key)
    requires Filter(q, Insert(x, s[1..], key)) ==
             if q(x) then Insert(x, Filter(q, s[1..]), key) else Filter(q, s[1..])
    ensures Filter(q, Insert(x, s, key)) == if q(x) then Insert(x, Filter(q, s), key) else Filter(q, s)
  {
    DescendingTail(s, key);
    FilterInsertHead(q, x, s, key);
    FilterHead(q, s);
    if q(s[0]) && q(x) {
      KeptHeadStaysFirst(x, s[0], Filter(q, s[1..]), key);
    }
  }

  /** Inserting behind the head and filtering judges the head on its own. */
  lemma FilterInsertHead<T(!new)>(q: T -> bool, x: T, s: seq<T>, key: T -> int)
    requires Descending(s, key) && s != [] && key(x) < key(s[0]) && Descending(s[1..], key)
    ensures Filter(q, Insert(x, s, key)) == (if q(s[0]) then [s[0]] else []) + Filter(q, Insert(x, s[1..], key))
  {
    InsertBehind(x, s, key);
    FilterCons(q, s[0], Insert(x, s[1..], key));
  }

  /** A row whose key is smaller than the first key goes behind it. */
  lemma InsertBehind<T(!new)>(x: T, s: seq<T>, key: T -> int)
    requires Descending(s, key) && s != [] && key(x) < key(s[0]) && Descending(s[1..], key)
    ensures Insert(x, s, key) == [s[0]] + Insert(x, s[1..], key)
  {
  }

  /** Filtering a non-empty sequence judges its head on its own. */
  lemma FilterHead<T(!new)>(q: T -> bool, s: seq<T>)
    requires s != []
    ensures Filter(q, s) == (if q(s[0]) then [s[0]] else []) + Filter(q, s[1..])
  {
    assert s == [s[0]] + s[1..];
    FilterCons(q, s[0], s[1..]);
  }

  /** Inserting behind a larger head leaves the head in front. */
  lemma KeptHeadStaysFirst<T(!new)>(x: T, h: T, t: seq<T>, key: T -> int)
    requires Descending([h] + t, key) && Descending(t, key) && key(x) < key(h)
    ensures Insert(x, [h] + t, key) == [h] + Insert(x, t, key)
  {
    assert ([h] + t)[1..] == t;
  }

  /** A subsequence of a sorted sequence is sorted. */
  lemma {:induction false} FilterKeepsDescending<T(!new)>(q: T -> bool, s: seq<T>, key: T -> int)
    requires Descending(s, key)
    ensures Descending(Filter(q, s), key)
  {
    if s != [] {
      FilterKeepsDescending(q, s[1..], key);
      var rest := Filter(q, s[1..]);
      if q(s[0]) {
        assert forall y :: y in rest ==> key(y) <= key(s[0]) by {
          SortedHeadIsMax(s, key);
        }
        ConsDescending(s[0], rest, key);
      }
    }
  }

  /** Sorting commutes with filtering: an ordered query over a narrower `WHERE` is the
      ordered query over the wider one, filtered. */
  lemma {:induction false} FilterSortDesc<T(!new)>(q: T -> bool, s: seq<T>, key: T -> int)
    ensures Filter(q, SortDesc(s, key)) == SortDesc(Filter(q, s), key)
  {
    if s != [] {
      FilterSortDesc(q, s[1..], key);
      FilterInsert(q, s[0], SortDesc(s[1..], key), key);
    }
  }

  /** The ids of a SERIAL-keyed table: at least 1, strictly increasing in table order, and
      below the next value of the sequence. */
  ghost predicate Serial<T(!new)>(s: seq<T>, id: T -> nat, next: nat)
  {
    && (forall i :: 0 <= i < |s| ==> 1 <= id(s[i]) < next)
    && (forall i, j :: 0 <= i < j < |s| ==> id(s[i]) < id(s[j]))
  }

  /** A row that takes the next value of the sequence keeps the ids serial. */
  lemma SerialAppend<T(!new)>(s: seq<T>, id: T -> nat, next: nat, x: T)
    requires Serial(s, id, next) && id(x) == next && next >= 1
    ensures Serial(s + [x], id, next + 1)
  {
  }

  /** In a serial table an id names at most one row. */
  lemma SerialUnique<T(!new)>(s: seq<T>, id: T -> nat, next: nat, i: nat, j: nat)
    requires Serial(s, id, next) && i < |s| && j < |s| && id(s[i]) == id(s[j])
    ensures i == j
  {
  }

  /** A row with an id below every id of a serial sequence can head it. */
  lemma SerialCons<T(!new)>(h: T, t: seq<T>, id: T -> nat, next: nat)
    requires Serial(t, id, next) && 1 <= id(h) < next
    requires forall y :: y in t ==> id(h) < id(y)
    ensures Serial([h] + t, id, next)
  {
    var r := [h] + t;
    forall i, j | 0 <= i < j < |r| ensures id(r[i]) < id(r[j]) {
      assert r[j] == t[j - 1];
      if i > 0 {
        assert r[i] == t[i - 1];
      } else {
        assert t[j - 1] in t;
      }
    }
  }

  /** Deleting rows keeps the remaining ids serial. */
  lemma {:induction false} SerialFilter<T(!new)>(p: T -> bool, s: seq<T>, id: T -> nat, next: nat)
    requires Serial(s, id, next)
    ensures Serial(Filter(p, s), id, next)
  {
    if s != [] {
      assert Serial(s[1..], id, next);
      SerialFilter(p, s[1..], id, next);
      var rest := Filter(p, s[1..]);
      if p(s[0]) {
        assert forall y :: y in rest ==> id(s[0]) < id(y) by {
          forall y | y in rest ensures id(s[0]) < id(y) {
            var k :| 0 <= k < |s[1..]| && s[1..][k] == y;
            assert s[k + 1] == y;
          }
        }
        SerialCons(s[0], rest, id, next);
      }
    }
  }
}
