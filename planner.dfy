/** The priority planner: orders the four (light id, car count) entries before
    the rotation starts. Light ids are 0 North, 1 West, 2 South, 3 East. */
module Planner {

  /** One entry of the priority list: a light and the cars waiting at it. */
  datatype Entry = Entry(id: int, cars: int)

  /** The largest count a C++ `int` can hold; the input loop only accepts such counts. */
  const INT_MAX: int := 0x7fff_ffff

  /** The list as it stands before planning: light i with its own count, in id order. */
  function Initial(counts: seq<int>): seq<Entry>
    requires |counts| == 4
  {
    [Entry(0, counts[0]), Entry(1, counts[1]), Entry(2, counts[2]), Entry(3, counts[3])]
  }

  /** Every light reports zero cars: the simulation does not start. Some light
      reports a car otherwise, and for four non-negative counts this is the
      same as a zero total. */
  function NoTraffic(s: seq<Entry>): (r: bool)
    ensures !r ==> exists i :: 0 <= i < |s| && s[i].cars != 0
    ensures |s| == 4 && (forall i :: 0 <= i < 4 ==> s[i].cars >= 0) ==>
      (r <==> PairCars(s, 0) + PairCars(s, 1) == 0)
  {
    forall i :: 0 <= i < |s| ==> s[i].cars == 0
  }

  /** The sort comparator: more cars first, equal counts broken by the lower id.
      A light with more cars always goes first, a light never goes before one
      with more cars, and at an equal count the lower id goes first. */
  function HigherPriority(x: Entry, y: Entry): (r: bool)
    ensures x.cars > y.cars ==> r
    ensures r ==> x.cars >= y.cars
    ensures x.cars == y.cars ==> (r <==> x.id < y.id)
  {
    if x.cars == y.cars then x.id < y.id else x.cars > y.cars
  }

  /** No entry is followed by one of strictly higher priority. */
  predicate Sorted(s: seq<Entry>)
  {
    forall i, j :: 0 <= i < j < |s| ==> !HigherPriority(s[j], s[i])
  }

  predicate Distinct<T(==)>(s: seq<T>)
  {
    forall i, j :: 0 <= i < j < |s| ==> s[i] != s[j]
  }

  /** The light ids of a list, in list order. */
  function Ids(s: seq<Entry>): seq<int>
  {
    seq(|s|, i requires 0 <= i < |s| => s[i].id)
  }

  /** The comparator is a strict total order on entries, so it is a valid
      ordering for a sort and admits exactly one sorted arrangement. */
  lemma HigherPriorityIsStrictTotal(x: Entry, y: Entry, z: Entry)
    ensures !HigherPriority(x, x)
    ensures HigherPriority(x, y) ==> !HigherPriority(y, x)
    ensures x != y ==> HigherPriority(x, y) || HigherPriority(y, x)
    ensures HigherPriority(x, y) && HigherPriority(y, z) ==> HigherPriority(x, z)
  {
  }

  /** Being at or after in the order is transitive. */
  lemma NotHigherTransitive(x: Entry, y: Entry, z: Entry)
    requires !HigherPriority(y, x) && !HigherPriority(z, y)
    ensures !HigherPriority(z, x)
  {
  }

  /** Exchanges two elements of the array (`swap` in the paired mode, and the
      step of the single-mode sort). */
  method Swap(a: array<Entry>, i: int, j: int)
    requires 0 <= i < a.Length && 0 <= j < a.Length
    modifies a
    ensures a[i] == old(a[j]) && a[j] == old(a[i])
    ensures forall p :: 0 <= p < a.Length && p != i && p != j ==> a[p] == old(a[p])
    ensures multiset(a[..]) == old(multiset(a[..]))
  {
    a[i], a[j] := a[j], a[i];
  }

  /** Moves a[i] left into the sorted prefix a[..i], so that a[..i+1] is sorted. */
  method InsertIntoPrefix(a: array<Entry>, i: int)
    requires 0 <= i < a.Length
    requires forall p, q :: 0 <= p < q < i ==> !HigherPriority(a[q], a[p])
    modifies a
    ensures forall p, q :: 0 <= p < q <= i ==> !HigherPriority(a[q], a[p])
    ensures multiset(a[..]) == old(multiset(a[..]))
  {
    var j := i;
    while j > 0 && HigherPriority(a[j], a[j - 1])
      invariant 0 <= j <= i
      invariant multiset(a[..]) == old(multiset(a[..]))
      invariant forall p, q :: 0 <= p < q <= i && p != j && q != j ==> !HigherPriority(a[q], a[p])
      invariant forall q :: j < q <= i ==> !HigherPriority(a[q], a[j])
    {
      Swap(a, j - 1, j);
      j := j - 1;
    }
    forall p | 0 <= p < j ensures !HigherPriority(a[j], a[p]) {
      if p < j - 1 {
        NotHigherTransitive(a[p], a[j - 1], a[j]);
      }
    }
  }

  /** In-place sort by the comparator (the `sort` call of the single mode). */
  method SortByPriority(a: array<Entry>)
    modifies a
    ensures Sorted(a[..])
    ensures multiset(a[..]) == old(multiset(a[..]))
  {
    var i := 0;
    while i < a.Length
      invariant 0 <= i <= a.Length
      invariant forall p, q :: 0 <= p < q < i ==> !HigherPriority(a[q], a[p])
      invariant multiset(a[..]) == old(multiset(a[..]))
    {
      InsertIntoPrefix(a, i);
      i := i + 1;
    }
  }

  /** Two sorted arrangements of the same entries are identical: the single-mode
      order is fully determined by the counts, so planning is deterministic. */
  lemma {:induction false} SortedUnique(s: seq<Entry>, t: seq<Entry>)
    requires Sorted(s) && Sorted(t)
    requires multiset(s) == multiset(t)
    ensures s == t
  {
    if s != [] {
      assert |t| == |s| by { assert |multiset(t)| == |multiset(s)|; }
      assert s[0] in multiset(t);
      var k :| 0 <= k < |t| && t[k] == s[0];
      assert t[0] in multiset(s);
      var m :| 0 <= m < |s| && s[m] == t[0];
      assert !HigherPriority(t[0], s[0]) by { assert m == 0 || !HigherPriority(s[m], s[0]); }
      assert !HigherPriority(s[0], t[0]) by { assert k == 0 || !HigherPriority(t[k], t[0]); }
      HigherPriorityIsStrictTotal(s[0], t[0], t[0]);
      assert s[0] == t[0];
      assert s == [s[0]] + s[1..];
      assert t == [t[0]] + t[1..];
      assert multiset(s) == multiset{s[0]} + multiset(s[1..]);
      assert multiset(t) == multiset{t[0]} + multiset(t[1..]);
      calc {
        multiset(s[1..]);
        multiset(s) - multiset{s[0]};
        multiset(t) - multiset{t[0]};
        multiset(t[1..]);
      }
      SortedTail(s);
      SortedTail(t);
      SortedUnique(s[1..], t[1..]);
    }
  }

  lemma SortedTail(s: seq<Entry>)
    requires Sorted(s) && s != []
    ensures Sorted(s[1..])
  {
    forall i, j | 0 <= i < j < |s[1..]| ensures !HigherPriority(s[1..][j], s[1..][i]) {
      assert s[1..][i] == s[i + 1] && s[1..][j] == s[j + 1];
    }
  }

  lemma {:induction false} DistinctCountsAtMostOne<T>(s: seq<T>, x: T)
    requires Distinct(s)
    ensures multiset(s)[x] <= 1
  {
    if s != [] {
      assert s == [s[0]] + s[1..];
      assert Distinct(s[1..]) by {
        forall i, j | 0 <= i < j < |s[1..]| ensures s[1..][i] != s[1..][j] {
          assert s[1..][i] == s[i + 1] && s[1..][j] == s[j + 1];
        }
      }
      DistinctCountsAtMostOne(s[1..], x);
      if s[0] == x {
        assert x !in s[1..] by {
          forall i | 0 <= i < |s[1..]| ensures s[1..][i] != x {
            assert s[1..][i] == s[i + 1];
          }
        }
      }
    }
  }

  /** Rearranging a list without repetitions cannot create one. */
  lemma PermutationKeepsDistinct<T>(s: seq<T>, t: seq<T>)
    requires multiset(s) == multiset(t) && Distinct(t)
    ensures Distinct(s)
  {
    forall i, j | 0 <= i < j < |s| ensures s[i] != s[j] {
      if s[i] == s[j] {
        var x := s[i];
        assert s == s[..j] + s[j..];
        assert x in s[..j];
        assert x in s[j..];
        assert multiset(s)[x] == multiset(s[..j])[x] + multiset(s[j..])[x];
        DistinctCountsAtMostOne(t, x);
        assert false;
      }
    }
  }

  lemma {:induction false} IdsAppend(s: seq<Entry>, t: seq<Entry>)
    ensures Ids(s + t) == Ids(s) + Ids(t)
  {
  }

  /** Rearranging the entries rearranges their ids the same way. */
  lemma {:induction false} PermutationKeepsIds(s: seq<Entry>, t: seq<Entry>)
    requires multiset(s) == multiset(t)
    ensures multiset(Ids(s)) == multiset(Ids(t))
    decreases |s|
  {
    if s == [] {
      assert |t| == 0 by { assert |multiset(t)| == 0; }
    } else {
      assert s[0] in multiset(t);
      var k :| 0 <= k < |t| && t[k] == s[0];
      var rest := t[..k] + t[k + 1..];
      assert t == t[..k] + [t[k]] + t[k + 1..];
      assert s == [s[0]] + s[1..];
      assert multiset(t) == multiset(t[..k]) + multiset{t[k]} + multiset(t[k + 1..]);
      assert multiset(rest) == multiset(t[..k]) + multiset(t[k + 1..]);
      assert multiset(s) == multiset{s[0]} + multiset(s[1..]);
      calc {
        multiset(s[1..]);
        multiset(s) - multiset{s[0]};
        multiset(t) - multiset{t[k]};
        multiset(rest);
      }
      PermutationKeepsIds(s[1..], rest);
      IdsAppend([s[0]], s[1..]);
      IdsAppend(t[..k], [t[k]]);
      IdsAppend(t[..k] + [t[k]], t[k + 1..]);
      IdsAppend(t[..k], t[k + 1..]);
    }
  }

  /** A sorted arrangement of entries without repetitions puts every entry
      strictly before the ones of lower priority. */
  lemma SortedDistinctIsStrict(s: seq<Entry>)
    requires Sorted(s) && Distinct(s)
    ensures forall i, j :: 0 <= i < j < |s| ==> HigherPriority(s[i], s[j])
  {
    forall i, j | 0 <= i < j < |s| ensures HigherPriority(s[i], s[j]) {
      HigherPriorityIsStrictTotal(s[i], s[j], s[j]);
    }
  }

  /** Sum of the cars at a light's slot in the list and at the slot two further on:
      for the initial list, the North-South (k = 0) or West-East (k = 1) pair. */
  function PairCars(s: seq<Entry>, k: int): int
    requires |s| == 4 && 0 <= k < 2
  {
    s[k].cars + s[k + 2].cars
  }

  /** The paired-mode order: the pair with more cars goes first, a tie keeps
      North-South first; the only possible change is swapping both pairs. */
  function PairedOrder(s: seq<Entry>): (r: seq<Entry>)
    requires |s| == 4
    ensures |r| == 4 && multiset(r) == multiset(s)
    ensures PairCars(r, 0) >= PairCars(r, 1)
    ensures r == s || r == [s[1], s[0], s[3], s[2]]
    ensures PairCars(s, 0) >= PairCars(s, 1) ==> r == s
  {
    assert s == [s[0], s[1], s[2], s[3]];
    if PairCars(s, 1) > PairCars(s, 0) then [s[1], s[0], s[3], s[2]] else s
  }

  /** The planner block of `main`: returns false (no planning, nothing changed)
      when every count is zero; otherwise reorders the entries in place, by the
      pair rule in paired mode and by the comparator in single mode. */
  method Plan(a: array<Entry>, paired: bool) returns (run: bool)
    requires a.Length == 4
    modifies a
    ensures run <==> !NoTraffic(old(a[..]))
    ensures !run ==> a[..] == old(a[..])
    ensures run && paired ==> a[..] == PairedOrder(old(a[..]))
    ensures run && !paired ==> Sorted(a[..]) && multiset(a[..]) == multiset(old(a[..]))
  {
    if NoTraffic(a[..]) {
      return false;
    }
    run := true;
    if paired {
      var northSouth := a[0].cars + a[2].cars;
      var westEast := a[1].cars + a[3].cars;
      ghost var before := a[..];
      if westEast > northSouth {
        Swap(a, 0, 1);
        Swap(a, 2, 3);
        assert a[..] == [before[1], before[0], before[3], before[2]];
      }
    } else {
      SortByPriority(a);
    }
  }

  /** The single-mode rotation order as light ids: each of the four lights
      once, each strictly before those with fewer cars or, at an equal count,
      a higher id. */
  predicate SingleModeOrder(counts: seq<int>, lit: seq<int>)
    requires |counts| == 4
  {
    && |lit| == 4
    && multiset(lit) == multiset{0, 1, 2, 3}
    && (forall i :: 0 <= i < 4 ==> 0 <= lit[i] < 4)
    && forall i, j :: 0 <= i < j < 4 ==>
         HigherPriority(Entry(lit[i], counts[lit[i]]), Entry(lit[j], counts[lit[j]]))
  }

  /** Single mode on the initial list: the sorted list carries each light with
      its own count and its ids are in the single-mode rotation order. */
  lemma SingleOrderOfInitial(counts: seq<int>, r: seq<Entry>)
    requires |counts| == 4
    requires Sorted(r) && multiset(r) == multiset(Initial(counts))
    ensures |r| == 4
    ensures forall i :: 0 <= i < 4 ==> 0 <= r[i].id < 4 && r[i].cars == counts[r[i].id]
    ensures SingleModeOrder(counts, Ids(r))
  {
    var s := Initial(counts);
    assert |r| == 4 by { assert |multiset(r)| == |multiset(s)|; }
    PermutationKeepsIds(r, s);
    assert Ids(s) == [0, 1, 2, 3];
    assert Distinct(s);
    PermutationKeepsDistinct(r, s);
    SortedDistinctIsStrict(r);
    forall i | 0 <= i < 4 ensures 0 <= r[i].id < 4 && r[i].cars == counts[r[i].id] {
      assert r[i] in multiset(s);
    }
    var lit := Ids(r);
    forall i, j | 0 <= i < j < 4
      ensures HigherPriority(Entry(lit[i], counts[lit[i]]), Entry(lit[j], counts[lit[j]]))
    {
      assert Entry(lit[i], counts[lit[i]]) == r[i] && Entry(lit[j], counts[lit[j]]) == r[j];
    }
  }

  /** Counts North 3, West 3, South 1, East 0 give the single-mode order
      North, West, South, East. */
  lemma SingleOrderExample(r: seq<Entry>)
    requires Sorted(r) && multiset(r) == multiset(Initial([3, 3, 1, 0]))
    ensures Ids(r) == [0, 1, 2, 3]
  {
    var expected := [Entry(0, 3), Entry(1, 3), Entry(2, 1), Entry(3, 0)];
    assert expected == Initial([3, 3, 1, 0]);
    SortedUnique(r, expected);
  }

  /** Paired mode on the initial list: the first two slots hold the lights 0 and 1
      (West first exactly when West-East has more cars), and each slot's light
      together with the light opposite it covers all four lights once. */
  lemma PairedOrderOfInitial(counts: seq<int>)
    requires |counts| == 4
    ensures var r := PairedOrder(Initial(counts));
      && (counts[1] + counts[3] > counts[0] + counts[2] ==> r[0].id == 1 && r[1].id == 0)
      && (counts[1] + counts[3] <= counts[0] + counts[2] ==> r[0].id == 0 && r[1].id == 1)
      && {r[0].id, r[1].id} == {0, 1}
      && r[2].id == (r[0].id + 2) % 4 && r[3].id == (r[1].id + 2) % 4
      && {r[0].id, (r[0].id + 2) % 4} !! {r[1].id, (r[1].id + 2) % 4}
      && {r[0].id, (r[0].id + 2) % 4} + {r[1].id, (r[1].id + 2) % 4} == {0, 1, 2, 3}
  {
  }

  /** Counts North 1, West 5, South 1, East 5 put West-East first. */
  lemma PairedOrderExample()
    ensures Ids(PairedOrder(Initial([1, 5, 1, 5]))) == [1, 0, 3, 2]
  {
  }

  /** A C++ `int` result of an addition, assuming two's-complement wrap-around. */
  function Wrap32(x: int): (r: int)
    ensures -INT_MAX - 1 <= r <= INT_MAX
    ensures -INT_MAX - 1 <= x <= INT_MAX ==> r == x
  {
    (x + 0x8000_0000) % 0x1_0000_0000 - 0x8000_0000
  }

  /** The paired-mode choice as written: the two pair sums are `int` additions,
      which wrap once the counts of a pair exceed INT_MAX together. */
  function PairedOrderInt32(s: seq<Entry>): (r: seq<Entry>)
    requires |s| == 4
    requires forall i :: 0 <= i < 4 ==> 0 <= s[i].cars <= INT_MAX
    ensures r == s || r == [s[1], s[0], s[3], s[2]]
    ensures PairCars(s, 0) <= INT_MAX && PairCars(s, 1) <= INT_MAX ==> r == PairedOrder(s)
  {
    if Wrap32(PairCars(s, 1)) > Wrap32(PairCars(s, 0)) then [s[1], s[0], s[3], s[2]] else s
  }

  /** North INT_MAX, South 1, West and East 0: the North-South sum wraps to a
      negative number, so the lighter West-East pair is put first. */
  lemma PairedOrderInt32Overflow()
    ensures var s := Initial([INT_MAX, 0, 1, 0]);
      && PairCars(s, 0) > PairCars(s, 1)
      && PairedOrderInt32(s)[0].id == 1
      && PairedOrder(s)[0].id == 0
  {
    var s := Initial([INT_MAX, 0, 1, 0]);
    assert Wrap32(PairCars(s, 0)) == -INT_MAX - 1;
    assert Wrap32(PairCars(s, 1)) == 0;
  }
}
