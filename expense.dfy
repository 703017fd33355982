/** Record sets: the universal marker or a concrete list of rows, with union, intersection and total. */
module Expense {
  import opened Results
  import opened Seqs
  import opened Text
  import opened Schema

  /** `Expense`: the universal marker (`UNIVERSAL_SET`) or concrete rows. */
  datatype RecordSet = All | Some(rows: seq<Entry>)

  predicate HasIds(rows: seq<Entry>)
  {
    forall e :: e in rows ==> IdColumn in e
  }

  predicate SetHasIds(x: RecordSet)
  {
    x.Some? ==> HasIds(x.rows)
  }

  /** The identifiers occurring in `rows`. */
  function Ids(rows: seq<Entry>): set<string>
    requires HasIds(rows)
  {
    set e | e in rows :: e[IdColumn]
  }

  /** Rows in strictly increasing `Id` order, comparing identifiers as strings. */
  predicate StrictlySorted(rows: seq<Entry>)
  {
    HasIds(rows) && forall i, j :: 0 <= i < j < |rows| ==> Less(rows[i][IdColumn], rows[j][IdColumn])
  }

  /** The two-index merge of `Union`: on equal `Id`s the left row is kept and both advance. */
  function Merge(a: seq<Entry>, b: seq<Entry>): (r: seq<Entry>)
    requires HasIds(a) && HasIds(b)
    ensures HasIds(r) && |r| <= |a| + |b|
    decreases |a| + |b|
  {
    if a == [] then b
    else if b == [] then a
    else if a[0][IdColumn] == b[0][IdColumn] then [a[0]] + Merge(a[1..], b[1..])
    else if Less(a[0][IdColumn], b[0][IdColumn]) then [a[0]] + Merge(a[1..], b)
    else [b[0]] + Merge(a, b[1..])
  }

  /** `Expense.Union`, as a value. */
  function UnionOf(x: RecordSet, y: RecordSet): (r: RecordSet)
    requires SetHasIds(x) && SetHasIds(y)
    ensures x.All? || y.All? ==> r == All
    ensures x == Some([]) ==> r == y
    ensures y == Some([]) ==> r == x
    ensures x.Some? && y.Some? ==>
              && r.Some? && HasIds(r.rows)
              && (forall e :: e in r.rows ==> e in x.rows || e in y.rows)
              && (forall e :: e in x.rows ==> e in r.rows)
  {
    if x.All? || y.All? then All
    else
      MergeMembers(x.rows, y.rows);
      Some(Merge(x.rows, y.rows))
  }

  /** Every merged row comes from one of the two lists, and every left-hand row is kept. */
  lemma {:induction false} MergeMembers(a: seq<Entry>, b: seq<Entry>)
    requires HasIds(a) && HasIds(b)
    ensures forall e :: e in Merge(a, b) ==> e in a || e in b
    ensures forall e :: e in a ==> e in Merge(a, b)
    decreases |a| + |b|
  {
    if a != [] && b != [] {
      MergeFront(a, b);
      if a[0][IdColumn] == b[0][IdColumn] {
        MergeMembers(a[1..], b[1..]);
      } else if Less(a[0][IdColumn], b[0][IdColumn]) {
        MergeMembers(a[1..], b);
      } else {
        MergeMembers(a, b[1..]);
      }
      assert forall e :: e in a ==> e == a[0] || e in a[1..];
      assert forall e :: e in b[1..] ==> e in b;
      assert forall e :: e in a[1..] ==> e in a;
    }
  }

  /** `Expense.Union`: the universal marker absorbs; otherwise the `while` loop merging by `Id`. */
  method Union(x: RecordSet, y: RecordSet) returns (r: RecordSet)
    requires SetHasIds(x) && SetHasIds(y)
    ensures r == UnionOf(x, y)
  {
    if x.All? || y.All? {
      return All;
    }
    var a, b := x.rows, y.rows;
    var i, j := 0, 0;
    var ret := [];
    assert a[0..] == a && b[0..] == b;
    while i < |a| && j < |b|
      invariant 0 <= i <= |a| && 0 <= j <= |b|
      invariant HasIds(a[i..]) && HasIds(b[j..])
      invariant ret + Merge(a[i..], b[j..]) == Merge(a, b)
      decreases |a| - i + |b| - j
    {
      MergeAdvance(a, b, i, j, ret);
      if a[i][IdColumn] == b[j][IdColumn] {
        ret := ret + [a[i]];
        i, j := i + 1, j + 1;
      } else if Less(a[i][IdColumn], b[j][IdColumn]) {
        ret := ret + [a[i]];
        i := i + 1;
      } else {
        ret := ret + [b[j]];
        j := j + 1;
      }
    }
    MergeRest(a, b, i, j);
    ghost var merged := ret;
    ret := ret + a[i..];
    ret := ret + b[j..];
    assert ret == Merge(a, b) by {
      assert ret == merged + (a[i..] + b[j..]);
    }
    return Some(ret);
  }

  /** One iteration of the merge loop, from positions `i` and `j`. */
  lemma MergeAdvance(a: seq<Entry>, b: seq<Entry>, i: nat, j: nat, ret: seq<Entry>)
    requires HasIds(a) && HasIds(b) && i < |a| && j < |b|
    ensures HasIds(a[i..]) && HasIds(b[j..]) && HasIds(a[i + 1..]) && HasIds(b[j + 1..])
    ensures ret + Merge(a[i..], b[j..]) ==
              if a[i][IdColumn] == b[j][IdColumn] then (ret + [a[i]]) + Merge(a[i + 1..], b[j + 1..])
              else if Less(a[i][IdColumn], b[j][IdColumn]) then (ret + [a[i]]) + Merge(a[i + 1..], b[j..])
              else (ret + [b[j]]) + Merge(a[i..], b[j + 1..])
  {
    HasIdsSuffix(a, i);
    HasIdsSuffix(b, j);
    assert a[i..][1..] == a[i + 1..] && b[j..][1..] == b[j + 1..];
    MergeFront(a[i..], b[j..]);
  }

  /** One step of `Merge` on two non-empty lists. */
  lemma MergeFront(a: seq<Entry>, b: seq<Entry>)
    requires HasIds(a) && HasIds(b) && a != [] && b != []
    ensures HasIds(a[1..]) && HasIds(b[1..])
    ensures Merge(a, b) ==
              if a[0][IdColumn] == b[0][IdColumn] then [a[0]] + Merge(a[1..], b[1..])
              else if Less(a[0][IdColumn], b[0][IdColumn]) then [a[0]] + Merge(a[1..], b)
              else [b[0]] + Merge(a, b[1..])
  {
    HasIdsSuffix(a, 1);
    HasIdsSuffix(b, 1);
  }

  lemma HasIdsSuffix(rows: seq<Entry>, i: nat)
    requires HasIds(rows) && i <= |rows|
    ensures HasIds(rows[i..])
  {
    forall e | e in rows[i..] ensures IdColumn in e {
      var k :| 0 <= k < |rows[i..]| && rows[i..][k] == e;
      assert rows[i + k] == e;
    }
  }

  /** The loop ends when one side is used up; the merge of the rest is the other side's rest. */
  lemma MergeRest(a: seq<Entry>, b: seq<Entry>, i: nat, j: nat)
    requires HasIds(a) && HasIds(b) && i <= |a| && j <= |b| && (i == |a| || j == |b|)
    ensures Merge(a[i..], b[j..]) == a[i..] + b[j..]
  {
    if i == |a| {
      assert a[i..] == [];
    } else {
      assert b[j..] == [];
    }
  }

  /** `Expense.Intersection`: the rows of the left operand that also occur in the right one, each
      as often as it occurs on the left. */
  function Intersection(x: RecordSet, y: RecordSet): (r: RecordSet)
    ensures x.All? ==> r == y
    ensures y.All? ==> r == x
    ensures x.Some? && y.Some? ==>
              && r.Some? && IsSubseq(r.rows, x.rows)
              && (forall e :: e in r.rows <==> e in x.rows && e in y.rows)
              && (forall e :: multiset(r.rows)[e] == if e in y.rows then multiset(x.rows)[e] else 0)
  {
    if x.All? || y.All? then
      if y.All? then x else y
    else
      var inRight := e => e in y.rows;
      FilterCount(x.rows, inRight);
      Some(Filter(x.rows, inRight))
  }

  /**
   * The sum of `parse` applied to each row's amount, or the first failure of `parse`.
   * The parser is a parameter so that the laws below hold for any parser.
   */
  function SumAmounts(rows: seq<Entry>, parse: string -> Result<int>): Result<int>
    requires forall e :: e in rows ==> AmountColumn in e
  {
    if rows == [] then Ok(0)
    else
      var v :- parse(rows[0][AmountColumn]);
      var rest :- SumAmounts(rows[1..], parse);
      Ok(v + rest)
  }

  /** `Expense.TotalAmount`: iterating the universal marker fails. */
  function TotalAmount(x: RecordSet): (r: Result<int>)
    requires x.Some? ==> forall e :: e in x.rows ==> AmountColumn in e
    ensures x.All? ==> r == Err(UniversalNotIterable)
    ensures x == Some([]) ==> r == Ok(0)
  {
    if x.All? then Err(UniversalNotIterable) else SumAmounts(x.rows, ParseInt)
  }

  /** The total of two row lists placed one after the other is the sum of their totals. */
  lemma {:induction false} SumAmountsAppend(a: seq<Entry>, b: seq<Entry>, parse: string -> Result<int>)
    requires forall e :: e in a + b ==> AmountColumn in e
    requires SumAmounts(a, parse).Ok? && SumAmounts(b, parse).Ok?
    ensures SumAmounts(a + b, parse) == Ok(SumAmounts(a, parse).value + SumAmounts(b, parse).value)
  {
    if a == [] {
      assert a + b == b;
    } else {
      var ab := a + b;
      assert ab[0] == a[0] && ab[1..] == a[1..] + b;
      assert forall e :: e in a[1..] + b ==> e in ab;
      SumAmountsAppend(a[1..], b, parse);
    }
  }

  /** The sum succeeds exactly when every amount parses. */
  lemma {:induction false} SumAmountsSucceeds(rows: seq<Entry>, parse: string -> Result<int>)
    requires forall e :: e in rows ==> AmountColumn in e
    ensures SumAmounts(rows, parse).Ok? <==> forall e :: e in rows ==> parse(e[AmountColumn]).Ok?
  {
    if rows != [] {
      assert forall e :: e in rows[1..] ==> e in rows;
      SumAmountsSucceeds(rows[1..], parse);
      assert forall e :: e in rows ==> e == rows[0] || e in rows[1..];
    }
  }

  // ---- Laws of the merge ----

  /** A right-hand row is dropped only when a left-hand row has the same `Id`. */
  lemma {:induction false} MergeDropsOnlyTies(a: seq<Entry>, b: seq<Entry>)
    requires HasIds(a) && HasIds(b)
    ensures forall e :: e in b && e !in Merge(a, b) ==> e[IdColumn] in Ids(a)
    decreases |a| + |b|
  {
    if a != [] && b != [] {
      if a[0][IdColumn] == b[0][IdColumn] {
        MergeDropsOnlyTies(a[1..], b[1..]);
        assert a[0] in a;
        assert Ids(a[1..]) <= Ids(a) by {
          forall e | e in a[1..] ensures e[IdColumn] in Ids(a) { assert e in a; }
        }
      } else if Less(a[0][IdColumn], b[0][IdColumn]) {
        MergeDropsOnlyTies(a[1..], b);
        assert Ids(a[1..]) <= Ids(a) by {
          forall e | e in a[1..] ensures e[IdColumn] in Ids(a) { assert e in a; }
        }
      } else {
        MergeDropsOnlyTies(a, b[1..]);
      }
    }
  }

  /** The union holds every `Id` of either side and no other. */
  lemma MergeIds(a: seq<Entry>, b: seq<Entry>)
    requires HasIds(a) && HasIds(b)
    ensures Ids(Merge(a, b)) == Ids(a) + Ids(b)
  {
    var r := Merge(a, b);
    MergeDropsOnlyTies(a, b);
    MergeMembers(a, b);
    forall k | k in Ids(a) + Ids(b) ensures k in Ids(r) {
      if k in Ids(a) {
        var e :| e in a && e[IdColumn] == k;
        assert e in r;
      } else {
        var e :| e in b && e[IdColumn] == k;
        assert e in r;
      }
    }
    forall k | k in Ids(r) ensures k in Ids(a) + Ids(b) {
      var e :| e in r && e[IdColumn] == k;
      assert e in a || e in b;
    }
  }

  lemma SortedTail(s: seq<Entry>)
    requires StrictlySorted(s) && s != []
    ensures StrictlySorted(s[1..])
    ensures forall e :: e in s[1..] ==> Less(s[0][IdColumn], e[IdColumn])
  {
    forall i, j | 0 <= i < j < |s[1..]|
      ensures Less(s[1..][i][IdColumn], s[1..][j][IdColumn])
    {
      assert s[1..][i] == s[i + 1] && s[1..][j] == s[j + 1];
    }
    forall e | e in s[1..] ensures Less(s[0][IdColumn], e[IdColumn]) {
      var k :| 0 <= k < |s[1..]| && s[1..][k] == e;
      assert s[k + 1] == e;
    }
  }

  lemma SortedCons(h: Entry, s: seq<Entry>)
    requires StrictlySorted(s) && IdColumn in h
    requires forall e :: e in s ==> Less(h[IdColumn], e[IdColumn])
    ensures StrictlySorted([h] + s)
  {
    var t := [h] + s;
    forall i, j | 0 <= i < j < |t| ensures Less(t[i][IdColumn], t[j][IdColumn]) {
      assert t[j] == s[j - 1];
      if i > 0 {
        assert t[i] == s[i - 1];
      } else {
        assert s[j - 1] in s;
      }
    }
  }

  /** `Id` is a key of the rows: two rows with the same `Id` are the same row. */
  predicate UniqueIds(rows: seq<Entry>)
  {
    HasIds(rows) && forall x, y :: x in rows && y in rows && x[IdColumn] == y[IdColumn] ==> x == y
  }

  lemma SortedIdsUnique(rows: seq<Entry>)
    requires StrictlySorted(rows)
    ensures UniqueIds(rows)
  {
    forall x, y | x in rows && y in rows && x[IdColumn] == y[IdColumn] ensures x == y {
      var i :| 0 <= i < |rows| && rows[i] == x;
      var j :| 0 <= j < |rows| && rows[j] == y;
      LessIrreflexive(x[IdColumn]);
    }
  }

  lemma SortedNoDuplicates(rows: seq<Entry>)
    requires StrictlySorted(rows)
    ensures NoDuplicates(rows)
  {
    forall i, j | 0 <= i < j < |rows| ensures rows[i] != rows[j] {
      LessIrreflexive(rows[i][IdColumn]);
    }
  }

  /** Intersecting with the empty list, on either side, gives the empty list. */
  lemma IntersectionWithEmpty(x: RecordSet)
    ensures Intersection(x, Some([])) == Some([])
    ensures Intersection(Some([]), x) == Some([])
  {
    if x.Some? {
      FilterNone(x.rows, e => e in []);
    }
  }

  /** When `Id` is a key across both sides, the union holds exactly the rows of either side. */
  lemma MergeIsSetUnion(a: seq<Entry>, b: seq<Entry>)
    requires HasIds(a) && HasIds(b)
    requires forall x, y :: x in a && y in b && x[IdColumn] == y[IdColumn] ==> x == y
    ensures forall e :: e in Merge(a, b) <==> e in a || e in b
  {
    MergeDropsOnlyTies(a, b);
  }

  /** Merging two lists sorted by `Id` gives a list sorted by `Id`. */
  lemma {:induction false} MergeSorted(a: seq<Entry>, b: seq<Entry>)
    requires StrictlySorted(a) && StrictlySorted(b)
    ensures StrictlySorted(Merge(a, b))
    decreases |a| + |b|
  {
    if a != [] && b != [] {
      var x, y := a[0][IdColumn], b[0][IdColumn];
      SortedTail(a);
      SortedTail(b);
      if x == y {
        MergeSorted(a[1..], b[1..]);
        MergeMembers(a[1..], b[1..]);
        SortedCons(a[0], Merge(a[1..], b[1..]));
      } else if Less(x, y) {
        MergeSorted(a[1..], b);
        MergeMembers(a[1..], b);
        forall e | e in b ensures Less(x, e[IdColumn]) {
          if e != b[0] {
            assert e in b[1..] by { assert b == [b[0]] + b[1..]; }
            LessTransitive(x, y, e[IdColumn]);
          }
        }
        SortedCons(a[0], Merge(a[1..], b));
      } else {
        LessTotal(x, y);
        MergeSorted(a, b[1..]);
        MergeMembers(a, b[1..]);
        forall e | e in a ensures Less(y, e[IdColumn]) {
          if e != a[0] {
            assert e in a[1..] by { assert a == [a[0]] + a[1..]; }
            LessTransitive(y, x, e[IdColumn]);
          }
        }
        SortedCons(b[0], Merge(a, b[1..]));
      }
    }
  }

  /** On sorted inputs, a right-hand row that ties with a different left-hand row is not in the union. */
  lemma MergeKeepsLeftOnTie(a: seq<Entry>, b: seq<Entry>, x: Entry, y: Entry)
    requires StrictlySorted(a) && StrictlySorted(b)
    requires x in a && y in b && x != y && x[IdColumn] == y[IdColumn]
    ensures x in Merge(a, b) && y !in Merge(a, b)
  {
    var r := Merge(a, b);
    MergeSorted(a, b);
    MergeMembers(a, b);
    if y in r {
      var i :| 0 <= i < |r| && r[i] == x;
      var j :| 0 <= j < |r| && r[j] == y;
      if i < j {
        LessIrreflexive(x[IdColumn]);
      } else {
        LessIrreflexive(x[IdColumn]);
      }
    }
  }

  /** Merging two sub-sequences of one list sorted by `Id` gives a sub-sequence of it. */
  lemma {:induction false} MergeWithin(a: seq<Entry>, b: seq<Entry>, u: seq<Entry>)
    requires StrictlySorted(u) && IsSubseq(a, u) && IsSubseq(b, u)
    ensures HasIds(a) && HasIds(b) && IsSubseq(Merge(a, b), u)
    decreases |u|
  {
    SubseqMembers(a, u);
    SubseqMembers(b, u);
    if a == [] || b == [] {
    } else {
      SortedTail(u);
      var u0 := u[0];
      var aHead := a[0] == u0 && IsSubseq(a[1..], u[1..]);
      var bHead := b[0] == u0 && IsSubseq(b[1..], u[1..]);
      if aHead && bHead {
        MergeWithin(a[1..], b[1..], u[1..]);
      } else if aHead {
        assert IsSubseq(b, u[1..]);
        SubseqMembers(b, u[1..]);
        assert b[0] in u[1..];
        LessAsymmetric(u0[IdColumn], b[0][IdColumn]);
        LessIrreflexive(u0[IdColumn]);
        MergeWithin(a[1..], b, u[1..]);
      } else if bHead {
        assert IsSubseq(a, u[1..]);
        SubseqMembers(a, u[1..]);
        assert a[0] in u[1..];
        LessAsymmetric(u0[IdColumn], a[0][IdColumn]);
        LessIrreflexive(u0[IdColumn]);
        MergeWithin(a, b[1..], u[1..]);
      } else {
        assert IsSubseq(a, u[1..]) && IsSubseq(b, u[1..]);
        MergeWithin(a, b, u[1..]);
      }
    }
  }
}
