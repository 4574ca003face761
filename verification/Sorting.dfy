/** The sort of the category, movement and customer reports. */
module Sorting {
  import opened Prelude

  // ----- The comparator -----

  /** localeCompare orders strings by a total preorder, given here by the rank of each string: two strings of
      one rank are equal to it. */
  type Collation = string -> real

  /** A sort request over rows `T`. `pick` is the sorted column, null first (text columns by their rank), and
      `id` is the row's identifier, which breaks ties through the collation. */
  datatype Order<!T> = Order(pick: T -> Option<real>, ascending: bool, id: T -> string, collation: Collation)

  function Cmp(a: Option<real>, b: Option<real>): real {
    if a.None? && b.None? then 0.0 else if a.None? then -1.0 else if b.None? then 1.0 else a.value - b.value
  }

  function Compare<T>(o: Order<T>, a: T, b: T): real {
    var c := Cmp(o.pick(a), o.pick(b));
    var signed := if o.ascending then c else -c;
    if signed != 0.0 then signed else o.collation(o.id(a)) - o.collation(o.id(b))
  }

  predicate InOrder<T>(o: Order<T>, a: T, b: T) { Compare(o, a, b) <= 0.0 }

  lemma CompareIsConsistent<T>(o: Order<T>, a: T, b: T, c: T)
    ensures InOrder(o, a, b) || InOrder(o, b, a)
    ensures InOrder(o, a, b) && InOrder(o, b, a) <==> Compare(o, a, b) == 0.0
    ensures InOrder(o, a, b) && InOrder(o, b, c) ==> InOrder(o, a, c)
  {
  }

  // ----- The sort -----

  function Insert<T>(o: Order<T>, x: T, s: seq<T>): seq<T> {
    if s == [] then [x] else if InOrder(o, x, s[0]) then [x] + s else [s[0]] + Insert(o, x, s[1..])
  }

  /** The stable sort of the rows, which is what sorting an array with the comparator leaves in it. */
  function Sort<T>(o: Order<T>, s: seq<T>): seq<T> {
    if s == [] then [] else Insert(o, s[0], Sort(o, s[1..]))
  }

  predicate Sorted<T>(o: Order<T>, s: seq<T>) {
    forall i, j :: 0 <= i < j < |s| ==> InOrder(o, s[i], s[j])
  }

  lemma {:induction false} InsertKeeps<T>(o: Order<T>, x: T, s: seq<T>)
    ensures multiset(Insert(o, x, s)) == multiset(s) + multiset{x}
  {
    if s != [] && !InOrder(o, x, s[0]) {
      InsertKeeps(o, x, s[1..]);
      assert s == [s[0]] + s[1..];
    }
  }

  lemma {:induction false} InsertSorts<T>(o: Order<T>, x: T, s: seq<T>)
    requires Sorted(o, s)
    ensures Sorted(o, Insert(o, x, s))
  {
    if s != [] {
      var r := Insert(o, x, s);
      if InOrder(o, x, s[0]) {
        forall j | 0 <= j < |s|
          ensures InOrder(o, x, s[j])
        {
          CompareIsConsistent(o, x, s[0], s[j]);
        }
      } else {
        InsertSorts(o, x, s[1..]);
        InsertKeeps(o, x, s[1..]);
        CompareIsConsistent(o, x, s[0], x);
        forall j | 1 <= j < |r|
          ensures InOrder(o, s[0], r[j])
        {
          assert r[j] in multiset(Insert(o, x, s[1..]));
        }
      }
    }
  }

  /** Sorting gives the same rows in order. */
  lemma {:induction false} SortSorts<T>(o: Order<T>, s: seq<T>)
    ensures Sorted(o, Sort(o, s)) && multiset(Sort(o, s)) == multiset(s)
  {
    if s != [] {
      SortSorts(o, s[1..]);
      InsertSorts(o, s[0], Sort(o, s[1..]));
      InsertKeeps(o, s[0], Sort(o, s[1..]));
      assert s == [s[0]] + s[1..];
    }
  }

  /** The order by hand: ascending puts null columns first and then smaller ones, descending the other way
      round, and rows with one column follow their identifiers in both directions. */
  lemma SortOrdersColumns<T>(o: Order<T>, s: seq<T>, i: int, j: int)
    requires 0 <= i < j < |Sort(o, s)|
    ensures
      var r := Sort(o, s);
      var x, y := o.pick(r[i]), o.pick(r[j]);
      && (o.ascending ==> x.None? || (y.Some? && x.value <= y.value))
      && (!o.ascending ==> y.None? || (x.Some? && x.value >= y.value))
      && (x == y ==> o.collation(o.id(r[i])) <= o.collation(o.id(r[j])))
  {
    SortSorts(o, s);
    assert InOrder(o, Sort(o, s)[i], Sort(o, s)[j]);
  }

  lemma SortKeepsLength<T>(o: Order<T>, s: seq<T>)
    ensures |Sort(o, s)| == |s|
  {
    SortSorts(o, s);
    assert |Sort(o, s)| == |multiset(Sort(o, s))| == |multiset(s)|;
  }

  /** No two different rows compare as equal. */
  predicate NoTies<T(==)>(o: Order<T>, s: seq<T>) {
    forall a, b :: a in s && b in s && a != b ==> Compare(o, a, b) != 0.0
  }

  lemma SameHead<T>(o: Order<T>, s: seq<T>, t: seq<T>)
    requires Sorted(o, s) && Sorted(o, t) && multiset(s) == multiset(t) && NoTies(o, s) && s != [] && t != []
    ensures s[0] == t[0]
  {
    assert s[0] in multiset(t) && t[0] in multiset(s);
    CompareIsConsistent(o, s[0], t[0], t[0]);
    CompareIsConsistent(o, s[0], s[0], s[0]);
  }

  lemma SameTail<T>(s: seq<T>, t: seq<T>)
    requires multiset(s) == multiset(t) && s != [] && t != [] && s[0] == t[0]
    ensures multiset(s[1..]) == multiset(t[1..])
  {
    assert s == [s[0]] + s[1..] && t == [t[0]] + t[1..];
    assert multiset(s[1..]) == multiset(s) - multiset{s[0]};
    assert multiset(t[1..]) == multiset(t) - multiset{t[0]};
  }

  lemma {:induction false} SortedIsUnique<T>(o: Order<T>, s: seq<T>, t: seq<T>)
    requires Sorted(o, s) && Sorted(o, t) && multiset(s) == multiset(t) && NoTies(o, s)
    ensures s == t
  {
    if s == [] {
      assert |multiset(t)| == 0;
    } else {
      assert |t| == |multiset(t)| == |s|;
      SameHead(o, s, t);
      SameTail(s, t);
      SortedIsUnique(o, s[1..], t[1..]);
      assert s == [s[0]] + s[1..] && t == [t[0]] + t[1..];
    }
  }

  function TiesWith<T>(o: Order<T>, a: T): T -> bool { (x: T) => Compare(o, x, a) == 0.0 }

  lemma {:induction false} InsertIsStable<T>(o: Order<T>, x: T, s: seq<T>, a: T)
    ensures Filter(Insert(o, x, s), TiesWith(o, a)) == Filter([x] + s, TiesWith(o, a))
  {
    var p := TiesWith(o, a);
    assert ([x] + s)[1..] == s;
    if s != [] && !InOrder(o, x, s[0]) {
      InsertIsStable(o, x, s[1..], a);
      var rest := s[1..];
      assert ([x] + rest)[1..] == rest;
      assert ([s[0]] + Insert(o, x, rest))[1..] == Insert(o, x, rest);
      CompareIsConsistent(o, x, a, s[0]);
      assert !(p(x) && p(s[0]));
    }
  }

  /** The sort keeps the order of rows that compare as equal. */
  lemma {:induction false} SortIsStable<T>(o: Order<T>, s: seq<T>, a: T)
    ensures Filter(Sort(o, s), TiesWith(o, a)) == Filter(s, TiesWith(o, a))
  {
    if s != [] {
      SortIsStable(o, s[1..], a);
      InsertIsStable(o, s[0], Sort(o, s[1..]), a);
      assert ([s[0]] + Sort(o, s[1..]))[1..] == Sort(o, s[1..]);
    }
  }

  ghost function Without<T>(s: seq<T>, a: T): (r: seq<T>)
    requires a in s
    ensures multiset(r) + multiset{a} == multiset(s)
    ensures forall b :: b in s && b != a ==> b in r
  {
    var i :| 0 <= i < |s| && s[i] == a;
    assert s == s[..i] + [a] + s[i + 1..];
    s[..i] + s[i + 1..]
  }

  lemma BothTie<T>(o: Order<T>, a: T, b: T)
    requires Compare(o, a, b) == 0.0
    ensures Filter([a, b], TiesWith(o, a)) == [a, b]
  {
    CompareIsConsistent(o, a, b, a);
    assert [a, b][1..] == [b] && [b][1..] == [];
  }

  lemma FirstOfTies<T>(o: Order<T>, a: T, b: T, rest: seq<T>)
    requires Compare(o, a, b) == 0.0
    ensures Filter([a, b] + rest, TiesWith(o, a)) == [a, b] + Filter(rest, TiesWith(o, a))
  {
    FilterConcat([a, b], rest, TiesWith(o, a));
    BothTie(o, a, b);
  }

  lemma {:induction false} SameTies<T>(o: Order<T>, a: T, b: T, s: seq<T>)
    requires Compare(o, a, b) == 0.0
    ensures Filter(s, TiesWith(o, a)) == Filter(s, TiesWith(o, b))
  {
    if s != [] {
      CompareIsConsistent(o, s[0], a, b);
      CompareIsConsistent(o, s[0], b, a);
      CompareIsConsistent(o, a, b, a);
      SameTies(o, a, b, s[1..]);
    }
  }

  lemma TwoOrders<T>(o: Order<T>, a: T, b: T, rest: seq<T>)
    requires a != b && Compare(o, a, b) == 0.0
    ensures Sort(o, [a, b] + rest) != Sort(o, [b, a] + rest)
  {
    var p, q := [a, b] + rest, [b, a] + rest;
    CompareIsConsistent(o, a, b, a);
    FirstOfTies(o, a, b, rest);
    FirstOfTies(o, b, a, rest);
    SortIsStable(o, p, a);
    SortIsStable(o, q, b);
    SameTies(o, a, b, Sort(o, p));
    assert Filter(Sort(o, p), TiesWith(o, b))[0] == a;
    assert Filter(Sort(o, q), TiesWith(o, b))[0] == b;
  }

  lemma SamePairs<T>(s: seq<T>, a: T, b: T)
    requires a in s && b in s && a != b
    ensures multiset([a, b] + Without(Without(s, a), b)) == multiset(s) == multiset([b, a] + Without(Without(s, a), b))
  {
    var one := Without(s, a);
    var rest := Without(one, b);
    assert multiset([a, b] + rest) == multiset([a, b]) + multiset(rest);
    assert multiset([b, a] + rest) == multiset([b, a]) + multiset(rest);
    assert multiset([a, b]) == multiset{a} + multiset{b} == multiset([b, a]);
    calc {
      multiset(s);
      multiset(one) + multiset{a};
      multiset(rest) + multiset{b} + multiset{a};
    }
  }

  /** Two rows that tie keep whichever order the database gave them. */
  lemma TieShowsInput<T>(o: Order<T>, s: seq<T>, a: T, b: T)
    requires a in s && b in s && a != b && Compare(o, a, b) == 0.0
    ensures exists p, q :: multiset(p) == multiset(s) == multiset(q) && Sort(o, p) != Sort(o, q)
  {
    var rest := Without(Without(s, a), b);
    var p, q := [a, b] + rest, [b, a] + rest;
    TwoOrders(o, a, b, rest);
    SamePairs(s, a, b);
    assert multiset(p) == multiset(s) == multiset(q) && Sort(o, p) != Sort(o, q);
  }

  lemma SameElements<T>(s: seq<T>, t: seq<T>)
    requires multiset(s) == multiset(t)
    ensures forall x :: x in s ==> x in t
  {
    forall x | x in s
      ensures x in t
    {
      assert x in multiset(t);
    }
  }

  /** The report has one order whatever order the database returns the rows in, if and only if no two
      different rows compare as equal. */
  lemma OneOrder<T(!new)>(o: Order<T>, s: seq<T>)
    ensures (forall p, q :: multiset(p) == multiset(s) == multiset(q) ==> Sort(o, p) == Sort(o, q)) <==> NoTies(o, s)
  {
    if NoTies(o, s) {
      forall p, q | multiset(p) == multiset(s) == multiset(q)
        ensures Sort(o, p) == Sort(o, q)
      {
        SortSorts(o, p);
        SortSorts(o, q);
        SameElements(Sort(o, p), s);
        SortedIsUnique(o, Sort(o, p), Sort(o, q));
      }
    } else {
      var a, b :| a in s && b in s && a != b && Compare(o, a, b) == 0.0;
      TieShowsInput(o, s, a, b);
    }
  }

  /** Identifiers the collation tells apart make the order the only one. */
  lemma SeparatedIdentifiersGiveOneOrder<T(!new)>(o: Order<T>, s: seq<T>, p: seq<T>)
    requires forall i, j :: 0 <= i < j < |s| ==> o.collation(o.id(s[i])) != o.collation(o.id(s[j]))
    requires multiset(p) == multiset(s)
    ensures Sort(o, p) == Sort(o, s)
  {
    OneOrder(o, s);
  }

  /** A row of a report with its identifier and its sorted column. */
  datatype Keyed = Keyed(id: string, column: Option<real>)

  function ByColumn(ascending: bool, collation: Collation): Order<Keyed> {
    Order((r: Keyed) => r.column, ascending, (r: Keyed) => r.id, collation)
  }

  /** Grouping gives every row another identifier. */
  predicate UniqueIds(s: seq<Keyed>) { forall i, j :: 0 <= i < j < |s| ==> s[i].id != s[j].id }

  ghost predicate SortsOneWay(o: Order<Keyed>, s: seq<Keyed>) {
    forall p, q :: multiset(p) == multiset(s) == multiset(q) ==> Sort(o, p) == Sort(o, q)
  }

  lemma UniqueIdsNeverTie(o: Order<Keyed>, s: seq<Keyed>)
    requires UniqueIds(s) && o == ByColumn(o.ascending, o.collation)
    requires forall x, y :: x != y ==> o.collation(x) != o.collation(y)
    ensures NoTies(o, s)
  {
    forall a, b | a in s && b in s && a != b
      ensures Compare(o, a, b) != 0.0
    {
      assert a.id != b.id;
    }
  }

  /** Identifiers that are distinct strings make the order the only one, for every table, if and only if the
      collation tells all distinct strings apart. */
  lemma DistinctIdentifiersSuffice(ascending: bool, collation: Collation)
    ensures (forall s :: UniqueIds(s) ==> SortsOneWay(ByColumn(ascending, collation), s))
      <==> forall x, y :: x != y ==> collation(x) != collation(y)
  {
    var o := ByColumn(ascending, collation);
    if forall x, y :: x != y ==> collation(x) != collation(y) {
      forall s | UniqueIds(s)
        ensures SortsOneWay(o, s)
      {
        UniqueIdsNeverTie(o, s);
        OneOrder(o, s);
      }
    } else {
      var x, y :| x != y && collation(x) == collation(y);
      var s := [Keyed(x, None), Keyed(y, None)];
      assert s[0] in s && s[1] in s && Compare(o, s[0], s[1]) == 0.0;
      OneOrder(o, s);
      assert UniqueIds(s) && !SortsOneWay(o, s);
    }
  }
}
