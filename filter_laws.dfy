/** Laws of negation and of the field filters. */
module FilterLaws {
  import opened Results
  import opened Seqs
  import opened Text
  import opened Schema
  import opened Tokenizer
  import opened Expense
  import opened QueryHelper
  import opened QueryLaws

  // ---- Complement and negation ----

  /** The complement of the universe within itself is empty. */
  lemma ComplementOfUniverse(u: seq<Entry>)
    ensures Complement(Some(u), u) == Ok(Some([]))
  {
    FilterNone(u, e => e !in u);
  }

  /** The complement of the empty list is the whole universe, in its order. */
  lemma ComplementOfNothing(u: seq<Entry>)
    ensures Complement(Some([]), u) == Ok(Some(u))
  {
    FilterAll(u, e => e !in []);
  }

  /** `-t` is the complement of `t`'s result within the universe passed in. */
  lemma NegationScope(u: seq<Entry>, t: string)
    requires WellFormed(u)
    ensures var r := TokenResult(u, t);
            TokenResult(u, "-" + t) == if r.Err? then Err(r.error) else Complement(r.value, u)
  {
    assert ("-" + t)[1..] == t;
  }

  /** Inside a group, `a -t` intersects `a` with the complement of `t` in the whole universe,
      not in the rows `a` has already selected. */
  lemma NegationInGroup(u: seq<Entry>, q: string, a: string, t: string, x: RecordSet, s: seq<Entry>)
    requires WellFormed(u) && Tokens(q) == Ok([a, "-" + t]) && a != "OR"
    requires TokenResult(u, a) == Ok(x) && TokenResult(u, t) == Ok(Some(s))
    ensures QueryResult(u, q) == Ok(Intersection(x, Some(Filter(u, e => e !in s))))
  {
    var toks := [a, "-" + t];
    var f := Filter(u, e => e !in s);
    NegationScope(u, t);
    assert forall tk :: tk in toks ==> |tk| <= |q|;
    assert TokenResult(u, toks[1]) == Ok(Some(f));
    assert toks[1] != "OR" by {
      assert toks[1][0] == '-';
    }
    var g := Intersection(x, Some(f));
    GroupOfTwo(u, toks, |q|, x, Some(f));
    WithinHasIds(g, u);
    assert UnionAll(u, [g]) == g by {
      assert [g][..0] == [];
    }
  }

  /** Two tokens without `OR` form one group, the intersection of their results. */
  lemma GroupOfTwo(u: seq<Entry>, toks: seq<string>, bound: nat, x: RecordSet, y: RecordSet)
    requires WellFormed(u) && |toks| == 2 && toks[0] != "OR" && toks[1] != "OR"
    requires forall tk :: tk in toks ==> |tk| <= bound
    requires TokenResult(u, toks[0]) == Ok(x) && TokenResult(u, toks[1]) == Ok(y)
    ensures AndGroups(u, toks, 0, All, [], bound) == Ok([Intersection(x, y)])
  {
    var g := Intersection(x, y);
    assert Within(x, u) && Within(g, u);
    assert AndGroups(u, toks, 2, g, [], bound) == Ok([] + [g]);
    assert [] + [g] == [g];
    assert AndGroups(u, toks, 1, x, [], bound) == AndGroups(u, toks, 2, g, [], bound);
    assert Intersection(All, x) == x;
    assert AndGroups(u, toks, 0, All, [], bound) == AndGroups(u, toks, 1, x, [], bound);
  }

  /** `--t` selects the same rows as `t` whenever `t` selects a filter of the universe. */
  lemma DoubleNegation(u: seq<Entry>, t: string, s: seq<Entry>)
    requires WellFormed(u) && TokenResult(u, t) == Ok(Some(s)) && IsFilterOf(s, u)
    ensures TokenResult(u, "--" + t) == Ok(Some(s))
  {
    NegationScope(u, t);
    NegationScope(u, "-" + t);
    assert "--" + t == "-" + ("-" + t);
    var c := Filter(u, e => e !in s);
    FilterCongruent(u, e => e !in c, x => x in s);
  }

  /** On a universe strictly sorted by `Id`, `--t` always selects the same rows as a concrete `t`. */
  lemma DoubleNegationSorted(u: seq<Entry>, t: string, s: seq<Entry>)
    requires WellFormed(u) && StrictlySorted(u) && TokenResult(u, t) == Ok(Some(s))
    ensures TokenResult(u, "--" + t) == Ok(Some(s))
  {
    TokenInOrder(u, t);
    SortedNoDuplicates(u);
    SubseqIsFilter(s, u);
    DoubleNegation(u, t, s);
  }

  // ---- The field filters ----

  /** A field filter over no rows succeeds whatever the field; over some rows, an unknown field and an
      ordering operator on a field that is not comparable are errors. */
  lemma FieldFilterErrors(rows: seq<Entry>, field: string, op: Op, query: string)
    requires WellFormed(rows)
    ensures rows == [] ==> OneFieldHits(rows, field, op, query) == Ok([])
    ensures rows != [] && field !in FieldMapping ==> OneFieldHits(rows, field, op, query) == Err(UnknownField(field))
    ensures rows != [] && field in FieldMapping && op != Colon && field !in ComparableFields ==>
              OneFieldHits(rows, field, op, query) == Err(NotComparable(field))
  {
  }

  /** `hit` applied to a row's cell for `field`. */
  function CellHit(field: string, op: Op, query: string, e: Entry): Result<bool>
    requires field in FieldMapping && HasColumns(e)
  {
    Hit(field, op, query, e[FieldMapping[field]])
  }

  /** The first row of `_FindOneField`: its `hit`, then the rest. */
  lemma OneFieldHitsHead(rows: seq<Entry>, field: string, op: Op, query: string)
    requires WellFormed(rows) && rows != [] && field in FieldMapping
    ensures WellFormed(rows[1..]) && HasColumns(rows[0])
    ensures forall e :: e in rows <==> e == rows[0] || e in rows[1..]
    ensures var h := CellHit(field, op, query, rows[0]);
            var rest := OneFieldHits(rows[1..], field, op, query);
            OneFieldHits(rows, field, op, query) ==
              if h.Err? then Err(h.error)
              else if rest.Err? then rest
              else Ok(if h.value then [rows[0]] + rest.value else rest.value)
  {
    WellFormedSuffix(rows, 1);
    assert rows[0] in rows;
    assert rows == [rows[0]] + rows[1..];
  }

  /** `_FindOneField` succeeds exactly when `hit` succeeds on every row. */
  lemma {:induction false} OneFieldHitsSucceeds(rows: seq<Entry>, field: string, op: Op, query: string)
    requires WellFormed(rows) && field in FieldMapping
    ensures OneFieldHits(rows, field, op, query).Ok? <==> forall e :: e in rows ==> CellHit(field, op, query, e).Ok?
  {
    if rows != [] {
      OneFieldHitsHead(rows, field, op, query);
      OneFieldHitsSucceeds(rows[1..], field, op, query);
    }
  }

  /** When it succeeds, `_FindOneField` keeps each row on which `hit` holds as often as it occurs in
      `rows`, and no other row. */
  lemma {:induction false} OneFieldHitsCounts(rows: seq<Entry>, field: string, op: Op, query: string)
    requires WellFormed(rows) && field in FieldMapping
    ensures var r := OneFieldHits(rows, field, op, query);
            r.Ok? ==> forall e :: multiset(r.value)[e] ==
                        if e in rows && CellHit(field, op, query, e) == Ok(true) then multiset(rows)[e] else 0
  {
    if rows != [] {
      OneFieldHitsHead(rows, field, op, query);
      OneFieldHitsCounts(rows[1..], field, op, query);
      MultisetOfCons(rows);
    }
  }

  /** When it succeeds, `_FindOneField` keeps exactly the rows on which `hit` holds, each as often as it
      occurs in `rows`. */
  lemma OneFieldHitsKeeps(rows: seq<Entry>, field: string, op: Op, query: string)
    requires WellFormed(rows) && field in FieldMapping
    ensures var r := OneFieldHits(rows, field, op, query);
            r.Ok? ==> forall e :: e in rows ==> (e in r.value <==> CellHit(field, op, query, e) == Ok(true))
    ensures var r := OneFieldHits(rows, field, op, query);
            r.Ok? ==> forall e :: multiset(r.value)[e] ==
                        if e in rows && CellHit(field, op, query, e) == Ok(true) then multiset(rows)[e] else 0
  {
    OneFieldHitsCounts(rows, field, op, query);
    var r := OneFieldHits(rows, field, op, query);
    if r.Ok? {
      forall e | e in rows ensures e in r.value <==> CellHit(field, op, query, e) == Ok(true) {
        assert e in r.value <==> multiset(r.value)[e] > 0;
      }
    }
  }

  /** With `:`, the field filter keeps the rows whose mapped column contains the query. */
  lemma {:induction false} ColonIsContainment(rows: seq<Entry>, field: string, query: string)
    requires WellFormed(rows) && field in FieldMapping
    ensures OneFieldHits(rows, field, Colon, query) ==
              Ok(Filter(rows, e => FieldMapping[field] in e && Contains(e[FieldMapping[field]], query)))
  {
    if rows != [] {
      WellFormedSuffix(rows, 1);
      ColonIsContainment(rows[1..], field, query);
      assert rows[0] in rows && HasColumns(rows[0]);
    }
  }

  /** Neither whitespace nor `:` occurs in the text. */
  predicate PlainWord(w: string)
  {
    IsWord(w) && forall i :: 0 <= i < |w| ==> w[i] != ':'
  }

  lemma PlainHasNoColon(w: string)
    requires PlainWord(w)
    ensures ':' !in w
  {
  }

  /** A token that starts neither with `-` nor with `(` and contains an operator is a field comparison. */
  lemma ComparisonDispatch(u: seq<Entry>, tok: string, op: Op)
    requires WellFormed(u) && tok != [] && tok[0] != '-' && tok[0] != '('
    requires FirstOperator(tok) == Operator(op)
    ensures TokenResult(u, tok) == FieldComparison(u, tok, op)
  {
  }

  lemma ColonFound(a: string, b: string)
    ensures FirstOperator(a + ":" + b) == Operator(Colon)
  {
    var tok := a + ":" + b;
    assert OccursAt(tok, ":", |a|) by {
      assert tok[|a|..|a| + 1] == ":";
    }
    ContainsAt(tok, ":");
  }

  /** `field:value` with plain words on both sides is the `:` filter of that field for that value. */
  lemma ColonToken(u: seq<Entry>, field: string, value: string)
    requires WellFormed(u) && PlainWord(field) && PlainWord(value)
    requires field[0] != '-' && field[0] != '('
    ensures var r := OneFieldHits(u, field, Colon, value);
            TokenResult(u, field + ":" + value) == if r.Err? then Err(r.error) else Ok(Some(r.value))
  {
    var tok := field + ":" + value;
    ColonFound(field, value);
    ComparisonDispatch(u, tok, Colon);
    PlainHasNoColon(field);
    PlainHasNoColon(value);
    ReplaceCharAfter(field, value, ':', ' ');
    ReplaceCharAbsent(value, ':', ' ');
    var t := field + " " + value;
    assert ReplaceAll(tok, OpText(Colon), " ") == t;
    WordCountCons(field, value);
    WordCountOne(value);
    SplitAfterWord(field, value);
  }

  /** A token with two `:` splits into three words, which `_QueryOneToken` rejects. */
  lemma ExtraColonIsMalformed(u: seq<Entry>, a: string, b: string, c: string)
    requires WellFormed(u) && PlainWord(a) && PlainWord(b) && PlainWord(c)
    requires a[0] != '-' && a[0] != '('
    ensures TokenResult(u, a + ":" + b + ":" + c) == Err(MalformedComparison(a + ":" + b + ":" + c))
  {
    var tok := a + ":" + b + ":" + c;
    assert tok == a + ":" + (b + ":" + c);
    ColonFound(a, b + ":" + c);
    ComparisonDispatch(u, tok, Colon);
    PlainHasNoColon(a);
    PlainHasNoColon(b);
    PlainHasNoColon(c);
    ReplaceCharAfter(a, b + ":" + c, ':', ' ');
    ReplaceCharAfter(b, c, ':', ' ');
    ReplaceCharAbsent(c, ':', ' ');
    var t := a + " " + (b + " " + c);
    assert ReplaceAll(tok, OpText(Colon), " ") == t;
    WordCountCons(a, b + " " + c);
    WordCountCons(b, c);
    WordCountOne(c);
  }
}
