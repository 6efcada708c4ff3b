/**
 A stable sort by a selected comparator, as `Array.prototype.sort` performs
 it: the result is ordered by the comparator, is a permutation of the input,
 and bikes the comparator ranks equal keep their input order.
 */
module Sorting {

  import opened Bikes
  import opened Ordering

  /** Inserts `x` in front of the first bike of `t` that does not sort
      strictly before it. */
  function Insert(o: SortOrder, x: Bike, t: seq<Bike>): (r: seq<Bike>)
    ensures |r| == |t| + 1
    decreases |t|
  {
    if t == [] then [x]
    else if Compare(o, t[0], x) < 0 then [t[0]] + Insert(o, x, t[1..])
    else [x] + t
  }

  /** Insertion adds exactly the inserted bike. */
  lemma {:induction false} InsertPermutes(o: SortOrder, x: Bike, t: seq<Bike>)
    ensures multiset(Insert(o, x, t)) == multiset(t) + multiset{x}
    decreases |t|
  {
    if t != [] && Compare(o, t[0], x) < 0 {
      InsertPermutes(o, x, t[1..]);
      assert t == [t[0]] + t[1..];
    }
  }

  /** Insertion sort: sorts the tail, then inserts the head. */
  function Sort(o: SortOrder, s: seq<Bike>): (r: seq<Bike>)
    ensures |r| == |s|
    decreases |s|
  {
    if s == [] then []
    else Insert(o, s[0], Sort(o, s[1..]))
  }

  /** The sort's output is a permutation of its input. */
  lemma {:induction false} SortPermutes(o: SortOrder, s: seq<Bike>)
    ensures multiset(Sort(o, s)) == multiset(s)
    decreases |s|
  {
    if s != [] {
      SortPermutes(o, s[1..]);
      InsertPermutes(o, s[0], Sort(o, s[1..]));
      assert s == [s[0]] + s[1..];
    }
  }

  /** Inserting into a sorted sequence keeps it sorted, and the result starts
      with the inserted bike or with the old head. */
  lemma {:induction false} InsertSorted(o: SortOrder, x: Bike, t: seq<Bike>)
    requires Sorted(o, t)
    ensures Sorted(o, Insert(o, x, t))
    ensures Insert(o, x, t)[0] == x || (|t| > 0 && Insert(o, x, t)[0] == t[0])
    decreases |t|
  {
    if t != [] && Compare(o, t[0], x) < 0 {
      var rest := Insert(o, x, t[1..]);
      assert Insert(o, x, t) == [t[0]] + rest;
      SortedTail(o, t);
      InsertSorted(o, x, t[1..]);
      assert Compare(o, t[0], rest[0]) <= 0;
      assert Sorted(o, [t[0]] + rest) by {
        var r := [t[0]] + rest;
        forall i | 0 <= i < |r| - 1
          ensures Compare(o, r[i], r[i + 1]) <= 0
        {
          if i > 0 {
            assert r[i] == rest[i - 1] && r[i + 1] == rest[i];
          }
        }
      }
    } else if t != [] {
      CompareFlip(o, t[0], x);
    }
  }

  /** The sort's output is in comparator order. */
  lemma {:induction false} SortSorted(o: SortOrder, s: seq<Bike>)
    ensures Sorted(o, Sort(o, s))
    decreases |s|
  {
    if s != [] {
      SortSorted(o, s[1..]);
      InsertSorted(o, s[0], Sort(o, s[1..]));
    }
  }

  /** Inserting `y` adds it to `x`'s run of equal keys exactly when the two
      compare equal, and in front of the run, since `y` came first. */
  lemma {:induction false} InsertSameKey(o: SortOrder, x: Bike, y: Bike, t: seq<Bike>)
    ensures SameKey(o, x, Insert(o, y, t))
      == (if Compare(o, x, y) == 0 then [y] else []) + SameKey(o, x, t)
    decreases |t|
  {
    if t != [] && Compare(o, t[0], y) < 0 {
      InsertSameKey(o, x, y, t[1..]);
      assert Insert(o, y, t) == [t[0]] + Insert(o, y, t[1..]);
      assert t == [t[0]] + t[1..];
      SkipPastSmaller(o, x, y, t[0], Insert(o, y, t[1..]), t[1..]);
    } else {
      SameKeyCons(o, x, y, t);
    }
  }

  /** Putting a bike `b` that sorts strictly before `y` in front of both sides
      keeps `y` at the head of `x`'s run. */
  lemma SkipPastSmaller(o: SortOrder, x: Bike, y: Bike, b: Bike, r: seq<Bike>, t: seq<Bike>)
    requires Compare(o, b, y) < 0
    requires SameKey(o, x, r) == (if Compare(o, x, y) == 0 then [y] else []) + SameKey(o, x, t)
    ensures SameKey(o, x, [b] + r)
      == (if Compare(o, x, y) == 0 then [y] else []) + SameKey(o, x, [b] + t)
  {
    SameKeyCons(o, x, b, r);
    SameKeyCons(o, x, b, t);
    if Compare(o, x, y) == 0 && Compare(o, x, b) == 0 {
      CompareFlip(o, x, b);
      SameKeyTrans(o, b, x, y);
      assert false;
    }
  }

  lemma SameKeyCons(o: SortOrder, x: Bike, b: Bike, s: seq<Bike>)
    ensures SameKey(o, x, [b] + s) == (if Compare(o, x, b) == 0 then [b] else []) + SameKey(o, x, s)
  {
    assert ([b] + s)[1..] == s;
  }

  /** Stability: the bikes sharing any one sort position appear in the output
      in exactly their input order. */
  lemma {:induction false} SortStable(o: SortOrder, x: Bike, s: seq<Bike>)
    ensures SameKey(o, x, Sort(o, s)) == SameKey(o, x, s)
    decreases |s|
  {
    if s != [] {
      SortStable(o, x, s[1..]);
      InsertSameKey(o, x, s[0], Sort(o, s[1..]));
    }
  }

  /** Sorting an already sorted sequence leaves it exactly as it was. */
  lemma {:induction false} SortOfSorted(o: SortOrder, s: seq<Bike>)
    requires Sorted(o, s)
    ensures Sort(o, s) == s
    decreases |s|
  {
    if s != [] {
      var t := s[1..];
      assert Sort(o, t) == t by {
        SortedTail(o, s);
        SortOfSorted(o, t);
      }
      assert Insert(o, s[0], t) == s by {
        if t != [] {
          CompareFlip(o, s[0], t[0]);
        }
        InsertInFront(o, s[0], t);
        assert s == [s[0]] + t;
      }
    }
  }

  /** Sorting a sequence inserts its head into its sorted tail. */
  lemma SortCons(o: SortOrder, x: Bike, s: seq<Bike>, sorted: seq<Bike>, r: seq<Bike>)
    requires Sort(o, s) == sorted && Insert(o, x, sorted) == r
    ensures Sort(o, [x] + s) == r
  {
    assert ([x] + s)[1..] == s;
  }

  /** A bike passes a head that sorts strictly before it. */
  lemma InsertPast(o: SortOrder, x: Bike, y: Bike, t: seq<Bike>)
    requires Compare(o, y, x) < 0
    ensures Insert(o, x, [y] + t) == [y] + Insert(o, x, t)
  {
    assert ([y] + t)[1..] == t;
  }

  /** A bike that sorts no later than the head goes in front. */
  lemma InsertInFront(o: SortOrder, x: Bike, t: seq<Bike>)
    requires t == [] || Compare(o, t[0], x) >= 0
    ensures Insert(o, x, t) == [x] + t
  {
  }

  lemma SortedTail(o: SortOrder, s: seq<Bike>)
    requires Sorted(o, s) && s != []
    ensures Sorted(o, s[1..])
  {
    var t := s[1..];
    forall i | 0 <= i < |t| - 1
      ensures Compare(o, t[i], t[i + 1]) <= 0
    {
      assert t[i] == s[i + 1] && t[i + 1] == s[i + 2];
    }
  }

  /** Adjacent order extends to every pair: an earlier bike never sorts
      strictly after a later one. */
  lemma {:induction false} SortedAllPairs(o: SortOrder, s: seq<Bike>, i: int, j: int)
    requires Sorted(o, s)
    requires 0 <= i < j < |s|
    ensures Compare(o, s[i], s[j]) <= 0
    decreases j - i
  {
    if j > i + 1 {
      SortedAllPairs(o, s, i + 1, j);
      CompareTrans(o, s[i], s[i + 1], s[j]);
    }
  }

  /** Every bike of a sorted sequence sorts no earlier than its head. */
  lemma HeadFirst(o: SortOrder, s: seq<Bike>, b: Bike)
    requires Sorted(o, s) && b in s
    ensures Compare(o, s[0], b) <= 0
  {
    var j :| 0 <= j < |s| && s[j] == b;
    if j > 0 {
      SortedAllPairs(o, s, 0, j);
    } else {
      CompareFlip(o, b, b);
    }
  }

  /** The heads of two sorted sequences holding the same bikes share their
      sort position. */
  lemma HeadsTie(o: SortOrder, r: seq<Bike>, q: seq<Bike>)
    requires Sorted(o, r) && Sorted(o, q) && r != []
    requires multiset(r) == multiset(q)
    ensures q != [] && Compare(o, r[0], q[0]) == 0
  {
    assert r[0] in multiset(q);
    var y := q[0];
    assert y in multiset(r);
    HeadFirst(o, q, r[0]);
    HeadFirst(o, r, y);
    CompareFlip(o, r[0], y);
  }

  /** A sequence whose head shares `x`'s sort position starts `x`'s group. */
  lemma SameKeyHead(o: SortOrder, x: Bike, s: seq<Bike>)
    requires s != [] && Compare(o, x, s[0]) == 0
    ensures SameKey(o, x, s) != [] && SameKey(o, x, s)[0] == s[0]
  {
  }

  /** Two sorted sequences holding the same bikes, with the same bikes at
      the first one's head position, start with the same bike. */
  lemma SameHead(o: SortOrder, r: seq<Bike>, q: seq<Bike>)
    requires Sorted(o, r) && Sorted(o, q) && r != []
    requires multiset(r) == multiset(q)
    requires SameKey(o, r[0], r) == SameKey(o, r[0], q)
    ensures q != [] && r[0] == q[0]
  {
    HeadsTie(o, r, q);
    CompareFlip(o, r[0], r[0]);
    SameKeyHead(o, r[0], r);
    SameKeyHead(o, r[0], q);
  }

  /** Dropping a common head keeps the sort positions in agreement. */
  lemma SameKeysOfTails(o: SortOrder, r: seq<Bike>, q: seq<Bike>, z: Bike)
    requires r != [] && q != [] && r[0] == q[0]
    requires SameKey(o, z, r) == SameKey(o, z, q)
    ensures SameKey(o, z, r[1..]) == SameKey(o, z, q[1..])
  {
    var x := r[0];
    assert r == [x] + r[1..] && q == [x] + q[1..];
    SameKeyCons(o, z, x, r[1..]);
    SameKeyCons(o, z, x, q[1..]);
    var head := if Compare(o, z, x) == 0 then [x] else [];
    assert SameKey(o, z, r[1..]) == (head + SameKey(o, z, r[1..]))[|head|..];
    assert SameKey(o, z, q[1..]) == (head + SameKey(o, z, q[1..]))[|head|..];
  }

  /** Dropping a common head keeps all three agreements. */
  lemma TailsAgree(o: SortOrder, r: seq<Bike>, q: seq<Bike>)
    requires Sorted(o, r) && Sorted(o, q)
    requires multiset(r) == multiset(q)
    requires forall x :: SameKey(o, x, r) == SameKey(o, x, q)
    requires r != [] && q != [] && r[0] == q[0]
    ensures Sorted(o, r[1..]) && Sorted(o, q[1..])
    ensures multiset(r[1..]) == multiset(q[1..])
    ensures forall x :: SameKey(o, x, r[1..]) == SameKey(o, x, q[1..])
  {
    forall z
      ensures SameKey(o, z, r[1..]) == SameKey(o, z, q[1..])
    {
      SameKeysOfTails(o, r, q, z);
    }
    assert r == [r[0]] + r[1..] && q == [q[0]] + q[1..];
    assert multiset(r) == multiset{r[0]} + multiset(r[1..]);
    assert multiset(q) == multiset{r[0]} + multiset(q[1..]);
    assert multiset(r[1..]) == multiset(r) - multiset{r[0]};
    assert multiset(q[1..]) == multiset(q) - multiset{r[0]};
    SortedTail(o, r);
    SortedTail(o, q);
  }

  /** Two sorted sequences holding the same bikes, and the same bikes in the
      same order at every sort position, are equal. */
  lemma {:induction false} SortedSameKeysEqual(o: SortOrder, r: seq<Bike>, q: seq<Bike>)
    requires Sorted(o, r) && Sorted(o, q)
    requires multiset(r) == multiset(q)
    requires forall x :: SameKey(o, x, r) == SameKey(o, x, q)
    ensures r == q
    decreases |r|
  {
    assert |r| == |multiset(r)| == |q|;
    if r != [] {
      assert SameKey(o, r[0], r) == SameKey(o, r[0], q);
      SameHead(o, r, q);
      TailsAgree(o, r, q);
      SortedSameKeysEqual(o, r[1..], q[1..]);
      assert r == [r[0]] + r[1..] && q == [q[0]] + q[1..];
    }
  }

  /** The sorted order is unique: any permutation of the input that is sorted
      and keeps every sort position's bikes in input order is exactly `Sort`'s
      result, whatever stable algorithm produced it. */
  lemma SortUnique(o: SortOrder, s: seq<Bike>, r: seq<Bike>)
    requires multiset(r) == multiset(s) && Sorted(o, r)
    requires forall x :: SameKey(o, x, r) == SameKey(o, x, s)
    ensures r == Sort(o, s)
  {
    SortPermutes(o, s);
    SortSorted(o, s);
    forall x
      ensures SameKey(o, x, r) == SameKey(o, x, Sort(o, s))
    {
      SortStable(o, x, s);
    }
    SortedSameKeysEqual(o, r, Sort(o, s));
  }
}
