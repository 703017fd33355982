/** Laws of `QueryHelper.Query`: the empty query, single tokens, `OR` placement, and order. */
module QueryLaws {
  import opened Results
  import opened Seqs
  import opened Text
  import opened Schema
  import opened Tokenizer
  import opened Expense
  import opened QueryHelper

  // ---- Empty and single-token queries ----

  /** An empty or all-whitespace query returns the universe unchanged. */
  lemma EmptyQueryIsUniverse(u: seq<Entry>, q: string)
    requires WellFormed(u) && AllSpace(q)
    ensures QueryResult(u, q) == Ok(Some(u))
  {
  }

  /** A query of one token is that token's result, with no `OR` handling. */
  lemma SingleTokenIsDirect(u: seq<Entry>, q: string, t: string)
    requires WellFormed(u) && Tokens(q) == Ok([t])
    ensures QueryResult(u, q) == TokenResult(u, t)
  {
  }

  /** A lone `OR` is a free-text search for the text `OR`. */
  lemma LoneOrIsFreeText(u: seq<Entry>)
    requires WellFormed(u)
    ensures QueryResult(u, "OR") == Ok(Some(AllFieldsHits(u, "OR")))
  {
    OrIsOneToken();
    OrHasNoOperator();
  }

  lemma OrIsOneToken()
    ensures Tokens("OR") == Ok(["OR"])
  {
    StripIdentity("OR");
    assert Scan("OR", 2, 0) == Ok(["OR"]);
    assert Scan("OR", 1, 0) == Scan("OR", 2, 0);
  }

  lemma OrHasNoOperator()
    ensures FirstOperator("OR") == NoOperator
  {
    assert "OR"[1..] == "R" && "R"[1..] == "";
    forall o: Op ensures !Contains("OR", OpText(o)) {
      var p := OpText(o);
      assert p[0] != 'O' && p[0] != 'R';
      assert !Contains("", p);
      assert !(p <= "R");
      assert !Contains("R", p);
      assert !(p <= "OR");
    }
  }

  // ---- Placement of OR ----

  /** An `OR` as the first of several tokens is rejected. */
  lemma LeadingOrFails(u: seq<Entry>, q: string, toks: seq<string>)
    requires WellFormed(u) && Tokens(q) == Ok(toks) && |toks| >= 2 && toks[0] == "OR"
    ensures QueryResult(u, q) == Err(MisplacedOr)
  {
  }

  /** An `OR` right after another `OR` makes the query fail (with that error or an earlier one). */
  lemma DoubledOrFails(u: seq<Entry>, q: string, toks: seq<string>, i: nat)
    requires WellFormed(u) && Tokens(q) == Ok(toks)
    requires i + 1 < |toks| && toks[i] == "OR" && toks[i + 1] == "OR"
    ensures QueryResult(u, q).Err?
  {
    AndGroupsDoubledOr(u, toks, 0, All, [], |q|, i);
  }

  lemma {:induction false} AndGroupsDoubledOr(u: seq<Entry>, toks: seq<string>, j: nat, acc: RecordSet,
                                              groups: seq<RecordSet>, bound: nat, i: nat)
    requires WellFormed(u) && j <= i && i + 1 < |toks| && toks[i] == "OR" && toks[i + 1] == "OR"
    requires forall t :: t in toks ==> |t| <= bound
    requires Within(acc, u) && forall g :: g in groups ==> Within(g, u)
    ensures AndGroups(u, toks, j, acc, groups, bound).Err?
    decreases i - j
  {
    if j == i {
      OrAfterOrFails(u, toks, i, acc, groups, bound);
    } else {
      if toks[j] == "OR" {
        if !acc.All? {
          AndGroupsDoubledOr(u, toks, j + 1, All, groups + [acc], bound, i);
        }
      } else {
        var v := TokenResult(u, toks[j]);
        if v.Ok? {
          AndGroupsDoubledOr(u, toks, j + 1, Intersection(acc, v.value), groups, bound, i);
        }
      }
    }
  }

  /** The token loop fails at the second of two adjacent `OR`s, if not already at the first. */
  lemma OrAfterOrFails(u: seq<Entry>, toks: seq<string>, i: nat, acc: RecordSet,
                       groups: seq<RecordSet>, bound: nat)
    requires WellFormed(u) && i + 1 < |toks| && toks[i] == "OR" && toks[i + 1] == "OR"
    requires forall t :: t in toks ==> |t| <= bound
    requires Within(acc, u) && forall g :: g in groups ==> Within(g, u)
    ensures AndGroups(u, toks, i, acc, groups, bound).Err?
  {
    if !acc.All? {
      assert AndGroups(u, toks, i, acc, groups, bound) == AndGroups(u, toks, i + 1, All, groups + [acc], bound);
    }
  }

  /** A trailing `OR` leaves a universal last group, which absorbs the union. */
  lemma TrailingOrIsUniversal(u: seq<Entry>, q: string, toks: seq<string>)
    requires WellFormed(u) && Tokens(q) == Ok(toks) && |toks| >= 2 && toks[|toks| - 1] == "OR"
    ensures QueryResult(u, q).Ok? ==> QueryResult(u, q) == Ok(All)
  {
    QueryOfGroups(u, q, toks);
    GroupsTrailingOr(u, toks, |q|);
  }

  lemma GroupsTrailingOr(u: seq<Entry>, toks: seq<string>, bound: nat)
    requires WellFormed(u) && |toks| >= 2 && toks[|toks| - 1] == "OR"
    requires forall t :: t in toks ==> |t| <= bound
    ensures var r := AndGroups(u, toks, 0, All, [], bound);
            r.Ok? ==> UnionAll(u, r.value) == All
  {
    var r := AndGroups(u, toks, 0, All, [], bound);
    AndGroupsTrailingOr(u, toks, 0, All, [], bound);
    if r.Ok? {
      UnionAllAbsorbs(u, r.value);
    }
  }

  /** The last of the groups is the universal marker. */
  predicate EndsUniversal(gs: seq<RecordSet>)
  {
    gs != [] && gs[|gs| - 1] == All
  }

  /** A final `OR` closes the open group and leaves a universal one after it. */
  lemma FinalOr(u: seq<Entry>, toks: seq<string>, acc: RecordSet, groups: seq<RecordSet>, bound: nat)
    requires WellFormed(u) && toks != [] && toks[|toks| - 1] == "OR"
    requires forall t :: t in toks ==> |t| <= bound
    requires Within(acc, u) && forall g :: g in groups ==> Within(g, u)
    ensures AndGroups(u, toks, |toks| - 1, acc, groups, bound).Ok? ==>
              EndsUniversal(AndGroups(u, toks, |toks| - 1, acc, groups, bound).value)
  {
    AndGroupsStep(u, toks, |toks| - 1, acc, groups, bound);
    var gs := groups + [acc] + [All];
    assert gs[|gs| - 1] == All;
  }

  lemma {:induction false} AndGroupsTrailingOr(u: seq<Entry>, toks: seq<string>, i: nat, acc: RecordSet,
                                               groups: seq<RecordSet>, bound: nat)
    requires WellFormed(u) && i < |toks| && toks[|toks| - 1] == "OR"
    requires forall t :: t in toks ==> |t| <= bound
    requires Within(acc, u) && forall g :: g in groups ==> Within(g, u)
    ensures AndGroups(u, toks, i, acc, groups, bound).Ok? ==>
              EndsUniversal(AndGroups(u, toks, i, acc, groups, bound).value)
    decreases |toks| - i
  {
    if i + 1 == |toks| {
      FinalOr(u, toks, acc, groups, bound);
    } else {
      AndGroupsStep(u, toks, i, acc, groups, bound);
      if toks[i] == "OR" {
        if !acc.All? {
          AndGroupsTrailingOr(u, toks, i + 1, All, groups + [acc], bound);
        }
      } else {
        var v := TokenResult(u, toks[i]);
        if v.Ok? {
          AndGroupsTrailingOr(u, toks, i + 1, Intersection(acc, v.value), groups, bound);
        }
      }
    }
  }

  /** The union of groups of which the last is universal is universal. */
  lemma UnionAllAbsorbs(u: seq<Entry>, gs: seq<RecordSet>)
    requires WellFormed(u) && forall g :: g in gs ==> Within(g, u)
    requires EndsUniversal(gs)
    ensures UnionAll(u, gs) == All
  {
  }

  // ---- Order: results follow the universe ----

  /** A concrete result is a sub-sequence of the universe. */
  predicate InOrder(x: RecordSet, u: seq<Entry>)
  {
    x.Some? ==> IsSubseq(x.rows, u)
  }

  /** With the universe strictly sorted by `Id`, every concrete token result keeps the universe's order. */
  lemma {:induction false} TokenInOrder(u: seq<Entry>, tok: string)
    requires WellFormed(u) && StrictlySorted(u)
    ensures TokenResult(u, tok).Ok? ==> InOrder(TokenResult(u, tok).value, u)
    decreases |tok|, 0, 0
  {
    if |tok| > 0 && tok[0] == '-' {
    } else if |tok| > 0 && tok[0] == '(' {
      if tok[|tok| - 1] == ')' {
        QueryInOrder(u, tok[1..|tok| - 1]);
      }
    }
  }

  /** With the universe strictly sorted by `Id`, every concrete query result keeps the universe's order. */
  lemma {:induction false} QueryInOrder(u: seq<Entry>, q: string)
    requires WellFormed(u) && StrictlySorted(u)
    ensures QueryResult(u, q).Ok? ==> InOrder(QueryResult(u, q).value, u)
    decreases |q|, 2, 0
  {
    var toks := Tokens(q);
    if toks.Ok? {
      if toks.value == [] {
        SubseqReflexive(u);
      } else if |toks.value| == 1 {
        TokenInOrder(u, toks.value[0]);
      } else {
        var r := AndGroups(u, toks.value, 0, All, [], |q|);
        AndGroupsInOrder(u, toks.value, 0, All, [], |q|);
        if r.Ok? {
          UnionAllInOrder(u, r.value);
        }
      }
    }
  }

  lemma {:induction false} AndGroupsInOrder(u: seq<Entry>, toks: seq<string>, i: nat, acc: RecordSet,
                                            groups: seq<RecordSet>, bound: nat)
    requires WellFormed(u) && StrictlySorted(u) && i <= |toks|
    requires forall t :: t in toks ==> |t| <= bound
    requires Within(acc, u) && forall g :: g in groups ==> Within(g, u)
    requires InOrder(acc, u) && forall g :: g in groups ==> InOrder(g, u)
    ensures AndGroups(u, toks, i, acc, groups, bound).Ok? ==>
              forall g :: g in AndGroups(u, toks, i, acc, groups, bound).value ==> InOrder(g, u)
    decreases bound, 1, |toks| - i
  {
    if i < |toks| {
      if toks[i] == "OR" {
        if !acc.All? {
          AndGroupsInOrder(u, toks, i + 1, All, groups + [acc], bound);
        }
      } else {
        var v := TokenResult(u, toks[i]);
        if v.Ok? {
          TokenInOrder(u, toks[i]);
          var next := Intersection(acc, v.value);
          if acc.Some? && v.value.Some? {
            SubseqTransitive(next.rows, acc.rows, u);
          }
          AndGroupsInOrder(u, toks, i + 1, next, groups, bound);
        }
      }
    }
  }

  lemma {:induction false} UnionAllInOrder(u: seq<Entry>, gs: seq<RecordSet>)
    requires WellFormed(u) && StrictlySorted(u)
    requires forall g :: g in gs ==> Within(g, u) && InOrder(g, u)
    ensures InOrder(UnionAll(u, gs), u)
  {
    if gs != [] {
      var init := gs[..|gs| - 1];
      assert forall g :: g in init ==> g in gs;
      UnionAllInOrder(u, init);
      var prev := UnionAll(u, init);
      var last := gs[|gs| - 1];
      assert last in gs;
      if prev.Some? && last.Some? {
        MergeWithin(prev.rows, last.rows, u);
      }
    }
  }

  // ---- The result is the union of the AND-groups ----

  /** Whether a record set admits a row: the universal marker admits every row. */
  predicate Admits(x: RecordSet, e: Entry)
  {
    x.All? || e in x.rows
  }

  /** The tokens from position `i` cut at each `OR`: the group being read, then the later groups. */
  function GroupsFrom(toks: seq<string>, i: nat): (r: seq<seq<string>>)
    requires i <= |toks|
    ensures r != []
    decreases |toks| - i
  {
    if i == |toks| then [[]]
    else
      var rest := GroupsFrom(toks, i + 1);
      if toks[i] == "OR" then [[]] + rest
      else [[toks[i]] + rest[0]] + rest[1..]
  }

  /** Every token of the group evaluates without error and admits the row. */
  predicate GroupAdmits(u: seq<Entry>, g: seq<string>, e: Entry)
    requires WellFormed(u)
  {
    forall t :: t in g ==> TokenResult(u, t).Ok? && Admits(TokenResult(u, t).value, e)
  }

  lemma IntersectionAdmits(x: RecordSet, y: RecordSet, e: Entry)
    ensures Admits(Intersection(x, y), e) <==> Admits(x, e) && Admits(y, e)
  {
  }

  lemma GroupAdmitsCons(u: seq<Entry>, t: string, g: seq<string>, e: Entry)
    requires WellFormed(u)
    ensures GroupAdmits(u, [t] + g, e) <==>
              TokenResult(u, t).Ok? && Admits(TokenResult(u, t).value, e) && GroupAdmits(u, g, e)
  {
    assert forall s :: s in [t] + g <==> s == t || s in g;
  }

  /** Some record set of `gs` admits the row. */
  predicate AnyAdmits(gs: seq<RecordSet>, e: Entry)
  {
    exists g :: g in gs && Admits(g, e)
  }

  /** Some group of `groups`, from position `from` on, admits the row. */
  predicate AnyGroupAdmits(u: seq<Entry>, groups: seq<seq<string>>, from: nat, e: Entry)
    requires WellFormed(u)
  {
    exists k :: from <= k < |groups| && GroupAdmits(u, groups[k], e)
  }

  lemma AnyAdmitsAppend(gs: seq<RecordSet>, x: RecordSet, e: Entry)
    ensures AnyAdmits(gs + [x], e) <==> AnyAdmits(gs, e) || Admits(x, e)
  {
    assert forall g :: g in gs + [x] <==> g in gs || g == x;
  }

  lemma AnyGroupAdmitsFirst(u: seq<Entry>, groups: seq<seq<string>>, e: Entry)
    requires WellFormed(u) && groups != []
    ensures AnyGroupAdmits(u, groups, 0, e) <==> GroupAdmits(u, groups[0], e) || AnyGroupAdmits(u, groups, 1, e)
  {
  }

  /** Some group from the first admits a row exactly when some member of the list does. */
  lemma AnyGroupAdmitsMembers(u: seq<Entry>, groups: seq<seq<string>>, e: Entry)
    requires WellFormed(u)
    ensures AnyGroupAdmits(u, groups, 0, e) <==> exists g :: g in groups && GroupAdmits(u, g, e)
  {
    if exists g :: g in groups && GroupAdmits(u, g, e) {
      var g :| g in groups && GroupAdmits(u, g, e);
      var k :| 0 <= k < |groups| && groups[k] == g;
    }
  }

  /** Opening an empty group in front shifts the later groups by one. */
  lemma AnyGroupAdmitsShift(u: seq<Entry>, rest: seq<seq<string>>, e: Entry)
    requires WellFormed(u)
    ensures AnyGroupAdmits(u, [[]] + rest, 1, e) <==> AnyGroupAdmits(u, rest, 0, e)
  {
    var later := [[]] + rest;
    if AnyGroupAdmits(u, later, 1, e) {
      var k :| 1 <= k < |later| && GroupAdmits(u, later[k], e);
      assert later[k] == rest[k - 1];
    }
    if AnyGroupAdmits(u, rest, 0, e) {
      var k :| 0 <= k < |rest| && GroupAdmits(u, rest[k], e);
      assert rest[k] == later[k + 1];
    }
  }

  /** Extending the first group leaves the later groups as they are. */
  lemma AnyGroupAdmitsExtend(u: seq<Entry>, first: seq<string>, rest: seq<seq<string>>, e: Entry)
    requires WellFormed(u) && rest != []
    ensures AnyGroupAdmits(u, [first] + rest[1..], 1, e) <==> AnyGroupAdmits(u, rest, 1, e)
  {
    var later := [first] + rest[1..];
    assert |later| == |rest|;
    assert forall k :: 1 <= k < |later| ==> later[k] == rest[k];
  }

  /** The groups that the token loop returns from token `i` admit a row exactly when a closed group,
      the open group with the rest of its tokens, or one of the later groups does. */
  predicate GroupsMeaning(u: seq<Entry>, toks: seq<string>, i: nat, acc: RecordSet,
                          groups: seq<RecordSet>, bound: nat, e: Entry)
    requires WellFormed(u) && i <= |toks|
    requires forall t :: t in toks ==> |t| <= bound
    requires Within(acc, u) && forall g :: g in groups ==> Within(g, u)
    requires AndGroups(u, toks, i, acc, groups, bound).Ok?
  {
    AnyAdmits(AndGroups(u, toks, i, acc, groups, bound).value, e) <==>
      || AnyAdmits(groups, e)
      || (Admits(acc, e) && GroupAdmits(u, GroupsFrom(toks, i)[0], e))
      || AnyGroupAdmits(u, GroupsFrom(toks, i), 1, e)
  }

  lemma {:induction false} AndGroupsMeaning(u: seq<Entry>, toks: seq<string>, i: nat, acc: RecordSet,
                                            groups: seq<RecordSet>, bound: nat, e: Entry)
    requires WellFormed(u) && i <= |toks|
    requires forall t :: t in toks ==> |t| <= bound
    requires Within(acc, u) && forall g :: g in groups ==> Within(g, u)
    requires AndGroups(u, toks, i, acc, groups, bound).Ok?
    ensures GroupsMeaning(u, toks, i, acc, groups, bound, e)
    decreases |toks| - i, 1
  {
    if i == |toks| {
      AnyAdmitsAppend(groups, acc, e);
    } else if toks[i] == "OR" {
      MeaningAtOr(u, toks, i, acc, groups, bound, e);
    } else {
      MeaningAtToken(u, toks, i, acc, groups, bound, e);
    }
  }

  /** An `OR` closes the open group and opens an empty one. */
  lemma {:induction false} MeaningAtOr(u: seq<Entry>, toks: seq<string>, i: nat, acc: RecordSet,
                                       groups: seq<RecordSet>, bound: nat, e: Entry)
    requires WellFormed(u) && i < |toks| && toks[i] == "OR"
    requires forall t :: t in toks ==> |t| <= bound
    requires Within(acc, u) && forall g :: g in groups ==> Within(g, u)
    requires AndGroups(u, toks, i, acc, groups, bound).Ok?
    ensures GroupsMeaning(u, toks, i, acc, groups, bound, e)
    decreases |toks| - i, 0
  {
    var rest := GroupsFrom(toks, i + 1);
    AndGroupsMeaning(u, toks, i + 1, All, groups + [acc], bound, e);
    AnyAdmitsAppend(groups, acc, e);
    AnyGroupAdmitsShift(u, rest, e);
    AnyGroupAdmitsFirst(u, rest, e);
  }

  /** Any other token narrows the open group. */
  lemma {:induction false} MeaningAtToken(u: seq<Entry>, toks: seq<string>, i: nat, acc: RecordSet,
                                          groups: seq<RecordSet>, bound: nat, e: Entry)
    requires WellFormed(u) && i < |toks| && toks[i] != "OR"
    requires forall t :: t in toks ==> |t| <= bound
    requires Within(acc, u) && forall g :: g in groups ==> Within(g, u)
    requires AndGroups(u, toks, i, acc, groups, bound).Ok?
    ensures GroupsMeaning(u, toks, i, acc, groups, bound, e)
    decreases |toks| - i, 0
  {
    var rest := GroupsFrom(toks, i + 1);
    var v := TokenResult(u, toks[i]).value;
    AndGroupsMeaning(u, toks, i + 1, Intersection(acc, v), groups, bound, e);
    IntersectionAdmits(acc, v, e);
    GroupAdmitsCons(u, toks[i], rest[0], e);
    AnyGroupAdmitsExtend(u, [toks[i]] + rest[0], rest, e);
  }

  /** When `Id` is a key of the universe, the union loop admits a row exactly when one of the groups does. */
  lemma {:induction false} UnionAllMeaning(u: seq<Entry>, gs: seq<RecordSet>, e: Entry)
    requires WellFormed(u) && UniqueIds(u)
    requires forall g :: g in gs ==> Within(g, u)
    ensures Admits(UnionAll(u, gs), e) <==> AnyAdmits(gs, e)
  {
    if gs != [] {
      var init := gs[..|gs| - 1];
      var last := gs[|gs| - 1];
      assert gs == init + [last];
      AnyAdmitsAppend(init, last, e);
      UnionAllMeaning(u, init, e);
      var prev := UnionAll(u, init);
      if prev.Some? && last.Some? {
        WithinHasIds(prev, u);
        WithinHasIds(last, u);
        forall x, y | x in prev.rows && y in last.rows && x[IdColumn] == y[IdColumn] ensures x == y {
          assert x in u && y in u;
        }
        MergeIsSetUnion(prev.rows, last.rows);
      }
    }
  }

  /** A query of several tokens admits a row exactly when, in some `OR`-separated group, every token
      admits it: the result is the union of the per-group intersections. */
  lemma QueryIsUnionOfGroups(u: seq<Entry>, q: string, toks: seq<string>, e: Entry)
    requires WellFormed(u) && UniqueIds(u)
    requires Tokens(q) == Ok(toks) && |toks| >= 2 && QueryResult(u, q).Ok?
    ensures Admits(QueryResult(u, q).value, e) <==> exists g :: g in GroupsFrom(toks, 0) && GroupAdmits(u, g, e)
  {
    var later := GroupsFrom(toks, 0);
    QueryOfGroups(u, q, toks);
    var gs := AndGroups(u, toks, 0, All, [], |q|).value;
    assert QueryResult(u, q).value == UnionAll(u, gs);
    AndGroupsMeaning(u, toks, 0, All, [], |q|, e);
    UnionAllMeaning(u, gs, e);
    AnyGroupAdmitsFirst(u, later, e);
    AnyGroupAdmitsMembers(u, later, e);
    assert !AnyAdmits([], e);
  }
}
