/** Concrete instances of the laws, taken from the unit tests' inputs. */
module Scenarios {
  import opened Results
  import opened Text
  import opened Schema
  import opened Expense
  import opened Seqs

  function Row(id: string): Entry
  {
    map["Id" := id]
  }

  /** The rows `1, 2, 3` and `2, 3, 4` intersect in `2, 3`. */
  lemma IntersectionExample()
    ensures Intersection(Some([Row("1"), Row("2"), Row("3")]), Some([Row("2"), Row("3"), Row("4")]))
            == Some([Row("2"), Row("3")])
  {
    var left := [Row("1"), Row("2"), Row("3")];
    var right := [Row("2"), Row("3"), Row("4")];
    assert Row("1") !in right by {
      assert Row("1")["Id"] != Row("2")["Id"];
      assert Row("1")["Id"] != Row("3")["Id"];
      assert Row("1")["Id"] != Row("4")["Id"];
    }
    assert Row("2") in right && Row("3") in right;
    var inRight := e => e in right;
    assert Filter(left[2..], inRight) == [Row("3")] by {
      assert left[2..][1..] == [];
    }
    assert Filter(left[1..], inRight) == [Row("2"), Row("3")] by {
      assert left[1..][1..] == left[2..];
    }
    assert Filter(left, inRight) == [Row("2"), Row("3")];
  }

  /** The rows `1, 2, 3` and `2, 3, 4` unite to `1, 2, 3, 4`, each once, in `Id` order. */
  lemma UnionExample()
    ensures UnionOf(Some([Row("1"), Row("2"), Row("3")]), Some([Row("2"), Row("3"), Row("4")]))
            == Some([Row("1"), Row("2"), Row("3"), Row("4")])
  {
    var a := [Row("1"), Row("2"), Row("3")];
    var b := [Row("2"), Row("3"), Row("4")];
    assert Less("1", "2");
    assert Merge(a[2..], b[1..]) == [Row("3"), Row("4")] by {
      assert a[2..][1..] == [] && b[1..][1..] == [Row("4")];
    }
    assert Merge(a[1..], b) == [Row("2"), Row("3"), Row("4")] by {
      assert a[1..][1..] == a[2..] && b[1..] == b[1..];
    }
  }

  /** Identifiers are compared as strings, so rows listed in numeric order (`9` before `10`) are not
      sorted for the merge, and their union repeats a row. */
  lemma NumericOrderRepeatsRow()
    ensures UnionOf(Some([Row("9"), Row("10")]), Some([Row("10")]))
            == Some([Row("10"), Row("9"), Row("10")])
  {
    var a := [Row("9"), Row("10")];
    var b := [Row("10")];
    assert Row("9")["Id"] != Row("10")["Id"];
    assert Less("10", "9");
    assert !Less("9", "10");
    assert Merge(a, b[1..]) == a;
  }
}
