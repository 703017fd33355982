/** Evaluating queries against a universe of rows: field filters, negation, grouping, AND and OR. */
module QueryHelper {
  import opened Results
  import opened Seqs
  import opened Text
  import opened Schema
  import opened Tokenizer
  import opened Expense

  // ---- Field operators ----

  /** The field operators, `:`, `>=`, `<=`, `<` and `>`. */
  datatype Op = Colon | AtLeast | AtMost | Below | Above

  function OpText(op: Op): string
  {
    match op
    case Colon => ":"
    case AtLeast => ">="
    case AtMost => "<="
    case Below => "<"
    case Above => ">"
  }

  /** Position of an operator in the order in which they are tried. */
  function Rank(op: Op): nat
  {
    match op
    case Colon => 0
    case AtLeast => 1
    case AtMost => 2
    case Below => 3
    case Above => 4
  }

  datatype OpMatch = NoOperator | Operator(op: Op)

  /** The first operator, in the order `:`, `>=`, `<=`, `<`, `>`, that occurs in the token. */
  function FirstOperator(tok: string): (r: OpMatch)
    ensures r.NoOperator? ==> forall o :: !Contains(tok, OpText(o))
    ensures r.Operator? ==> Contains(tok, OpText(r.op))
    ensures r.Operator? ==> forall o :: Rank(o) < Rank(r.op) ==> !Contains(tok, OpText(o))
  {
    if Contains(tok, ":") then Operator(Colon)
    else if Contains(tok, ">=") then Operator(AtLeast)
    else if Contains(tok, "<=") then Operator(AtMost)
    else if Contains(tok, "<") then Operator(Below)
    else if Contains(tok, ">") then Operator(Above)
    else NoOperator
  }

  /** Whether an ordering operator holds, given the sign of the comparison of value with query. */
  predicate Ordered(op: Op, sign: int)
    requires op != Colon
  {
    match op
    case AtLeast => sign >= 0
    case AtMost => sign <= 0
    case Below => sign < 0
    case Above => sign > 0
  }

  /** `hit`: whether a cell `value` satisfies `field op query`, or the error raised in deciding it. */
  function Hit(field: string, op: Op, query: string, value: string): (r: Result<bool>)
    ensures op == Colon ==> r == Ok(Contains(value, query))
    ensures op != Colon && field !in ComparableFields ==> r == Err(NotComparable(field))
  {
    if op == Colon then Ok(Contains(value, query))
    else if field !in ComparableFields then Err(NotComparable(field))
    else if field == "date" then
      var q :- ParseDate(ReplaceAll(query, "/", "-"));
      var v :- ParseDate(ReplaceAll(value, "/", "-"));
      Ok(Ordered(op, CompareDates(v, q)))
    else
      var v :- ParseInt(value);
      var q :- ParseInt(query);
      Ok(Ordered(op, CompareInts(v, q)))
  }

  /** On `id` and `amount`, an ordering operator compares the parsed integers. */
  lemma HitOnIntegers(field: string, op: Op, query: string, value: string, v: int, q: int)
    requires field == "id" || field == "amount"
    requires op != Colon && ParseInt(value) == Ok(v) && ParseInt(query) == Ok(q)
    ensures Hit(field, op, query, value) == Ok(match op
      case AtLeast => v >= q
      case AtMost => v <= q
      case Below => v < q
      case Above => v > q
      case Colon => false)
  {
  }

  /** On `date`, `/` reads as `-` on both sides and an ordering operator compares the dates
      chronologically, by their day numbers. */
  lemma HitOnDates(op: Op, query: string, value: string, v: Date, q: Date)
    requires op != Colon
    requires ParseDate(ReplaceAll(value, "/", "-")) == Ok(v) && ParseDate(ReplaceAll(query, "/", "-")) == Ok(q)
    ensures Hit("date", op, query, value) == Ok(match op
      case AtLeast => Ordinal(v) >= Ordinal(q)
      case AtMost => Ordinal(v) <= Ordinal(q)
      case Below => Ordinal(v) < Ordinal(q)
      case Above => Ordinal(v) > Ordinal(q)
      case Colon => false)
  {
    CompareDatesChronological(v, q);
  }

  /** An ordering operator on a comparable field fails when either side does not parse: on `date`
      the query is read first, on `id` and `amount` the cell is. */
  lemma HitParseErrors(field: string, op: Op, query: string, value: string)
    requires op != Colon && field in ComparableFields
    ensures var qd, vd := ReplaceAll(query, "/", "-"), ReplaceAll(value, "/", "-");
            field == "date" && ParseDate(qd).Err? ==> Hit(field, op, query, value) == Err(BadDate(qd))
    ensures var qd, vd := ReplaceAll(query, "/", "-"), ReplaceAll(value, "/", "-");
            field == "date" && ParseDate(qd).Ok? && ParseDate(vd).Err? ==> Hit(field, op, query, value) == Err(BadDate(vd))
    ensures field != "date" && ParseInt(value).Err? ==> Hit(field, op, query, value) == Err(BadInteger(value))
    ensures field != "date" && ParseInt(value).Ok? && ParseInt(query).Err? ==>
              Hit(field, op, query, value) == Err(BadInteger(query))
  {
  }

  // ---- The two row filters ----

  /** Some column of the row contains `q`. */
  predicate AnyFieldContains(e: Entry, q: string)
  {
    exists k :: k in e && Contains(e[k], q)
  }

  /** The test `_FindAllFields` applies to each row. */
  function MatchesAnyField(q: string): Entry -> bool
  {
    e => AnyFieldContains(e, q)
  }

  /** `_FindAllFields`: the rows with a column containing `q`, each as often as it occurs in `rows`. */
  function AllFieldsHits(rows: seq<Entry>, q: string): (r: seq<Entry>)
    ensures IsSubseq(r, rows)
    ensures forall e :: e in r <==> e in rows && AnyFieldContains(e, q)
    ensures forall e :: multiset(r)[e] == if AnyFieldContains(e, q) then multiset(rows)[e] else 0
  {
    FilterCount(rows, MatchesAnyField(q));
    Filter(rows, MatchesAnyField(q))
  }

  /** `_FindOneField`: the rows whose `field` cell satisfies `op query`, or the first error `hit` raises. */
  function OneFieldHits(rows: seq<Entry>, field: string, op: Op, query: string): (r: Result<seq<Entry>>)
    requires WellFormed(rows)
    ensures r.Ok? ==> IsSubseq(r.value, rows)
  {
    if rows == [] then Ok([])
    else if field !in FieldMapping then Err(UnknownField(field))
    else
      assert rows[0] in rows && HasColumns(rows[0]);
      WellFormedSuffix(rows, 1);
      var h :- Hit(field, op, query, rows[0][FieldMapping[field]]);
      var rest :- OneFieldHits(rows[1..], field, op, query);
      Ok(if h then [rows[0]] + rest else rest)
  }

  /** One row of the filter `AllFieldsHits` applies. */
  lemma AllFieldsHitsStep(rows: seq<Entry>, i: nat, q: string)
    requires i < |rows|
    ensures Filter(rows[i..], MatchesAnyField(q))
            == (if AnyFieldContains(rows[i], q) then [rows[i]] else []) + Filter(rows[i + 1..], MatchesAnyField(q))
  {
    assert rows[i..][0] == rows[i] && rows[i..][1..] == rows[i + 1..];
  }

  /** The inner loop of `_FindAllFields`: scans the columns of one row until one contains `q`. */
  method ScanColumns(e: Entry, q: string) returns (found: bool)
    ensures found == AnyFieldContains(e, q)
  {
    found := false;
    var keys := e.Keys;
    while keys != {} && !found
      invariant keys <= e.Keys
      invariant found ==> AnyFieldContains(e, q)
      invariant !found ==> forall k :: k in e.Keys - keys ==> !Contains(e[k], q)
      decreases |keys|
    {
      var k :| k in keys;
      if Contains(e[k], q) {
        found := true;
      }
      keys := keys - {k};
    }
    if !found {
      assert e.Keys - keys == e.Keys;
    }
  }

  /** `_FindAllFields`: the row loop, keeping the rows with a matching column. */
  method FindAllFields(rows: seq<Entry>, q: string) returns (r: seq<Entry>)
    ensures r == AllFieldsHits(rows, q)
  {
    r := [];
    for i := 0 to |rows|
      invariant r + Filter(rows[i..], MatchesAnyField(q)) == Filter(rows, MatchesAnyField(q))
    {
      var found := ScanColumns(rows[i], q);
      AllFieldsHitsStep(rows, i, q);
      if found {
        r := r + [rows[i]];
      }
    }
  }

  /** `acc` placed before the rows of a result; errors pass through. */
  function Prefixed(acc: seq<Entry>, r: Result<seq<Entry>>): Result<seq<Entry>>
  {
    match r
    case Ok(rows) => Ok(acc + rows)
    case Err(e) => Err(e)
  }

  /** `acc + [x]` placed before a result is `acc` placed before `[x]` placed before it. */
  lemma PrefixedAppend(acc: seq<Entry>, x: Entry, r: Result<seq<Entry>>)
    ensures Prefixed(acc + [x], r) == Prefixed(acc, Prefixed([x], r))
  {
    if r.Ok? {
      assert acc + [x] + r.value == acc + ([x] + r.value);
    }
  }

  /** One step of `OneFieldHits` on the suffix of `rows` from `i`. */
  lemma OneFieldHitsStep(rows: seq<Entry>, i: nat, field: string, op: Op, query: string)
    requires WellFormed(rows) && i < |rows|
    ensures WellFormed(rows[i..]) && WellFormed(rows[i + 1..])
    ensures field in FieldMapping ==> FieldMapping[field] in rows[i]
    ensures field !in FieldMapping ==> OneFieldHits(rows[i..], field, op, query) == Err(UnknownField(field))
    ensures field in FieldMapping ==>
      (OneFieldHits(rows[i..], field, op, query) ==
         match Hit(field, op, query, rows[i][FieldMapping[field]])
         case Err(e) => Err(e)
         case Ok(h) =>
           var rest := OneFieldHits(rows[i + 1..], field, op, query);
           if h then Prefixed([rows[i]], rest) else rest)
  {
    WellFormedSuffix(rows, i);
    WellFormedSuffix(rows, i + 1);
    assert rows[i..][0] == rows[i] && rows[i..][1..] == rows[i + 1..];
    assert rows[i] in rows && HasColumns(rows[i]);
  }

  /** `_FindOneField`: the row loop calling `hit` on the field's cell. */
  method FindOneField(rows: seq<Entry>, field: string, op: Op, query: string) returns (r: Result<seq<Entry>>)
    requires WellFormed(rows)
    ensures r == OneFieldHits(rows, field, op, query)
  {
    var acc := [];
    assert rows[0..] == rows;
    var whole := OneFieldHits(rows, field, op, query);
    assert Prefixed([], whole) == whole by {
      if whole.Ok? {
        assert [] + whole.value == whole.value;
      }
    }
    for i := 0 to |rows|
      invariant WellFormed(rows[i..])
      invariant Prefixed(acc, OneFieldHits(rows[i..], field, op, query)) == whole
    {
      OneFieldHitsStep(rows, i, field, op, query);
      if field !in FieldMapping {
        return Err(UnknownField(field));
      }
      var h := Hit(field, op, query, rows[i][FieldMapping[field]]);
      if h.Err? {
        return Err(h.error);
      }
      if h.value {
        PrefixedAppend(acc, rows[i], OneFieldHits(rows[i + 1..], field, op, query));
        acc := acc + [rows[i]];
      }
    }
    assert acc + [] == acc;
    return Ok(acc);
  }

  // ---- Negation ----

  /** `_GetComplementSet`: the rows of `u` not in `sub`, in the order of `u`. Testing a row against
      the universal marker fails as soon as there is a row to test. */
  function Complement(sub: RecordSet, u: seq<Entry>): (r: Result<RecordSet>)
    ensures sub.All? && u != [] ==> r == Err(UniversalNotIterable)
    ensures sub.Some? || u == [] ==> r.Ok? && r.value.Some?
    ensures r.Ok? ==> r.value.Some? && IsSubseq(r.value.rows, u)
    ensures r.Ok? ==> forall e :: e in r.value.rows <==> e in u && (sub.Some? ==> e !in sub.rows)
    ensures r.Ok? ==> forall e :: multiset(r.value.rows)[e] == if sub.Some? && e in sub.rows then 0 else multiset(u)[e]
  {
    if sub.All? then
      if u == [] then Ok(Some([])) else Err(UniversalNotIterable)
    else
      var outside := e => e !in sub.rows;
      FilterCount(u, outside);
      Ok(Some(Filter(u, outside)))
  }

  // ---- Query evaluation ----

  /** Every concrete row of `x` is a row of the universe. */
  predicate Within(x: RecordSet, u: seq<Entry>)
  {
    x.Some? ==> forall e :: e in x.rows ==> e in u
  }

  lemma WithinHasIds(x: RecordSet, u: seq<Entry>)
    requires WellFormed(u) && Within(x, u)
    ensures SetHasIds(x) && (x.Some? ==> WellFormed(x.rows))
  {
    if x.Some? {
      forall e | e in x.rows ensures IdColumn in e {
        WellFormedColumns(u, e);
      }
    }
  }

  /** `_QueryOneToken`: a leading `-` negates within `u`, a leading `(` evaluates the inside as a
      query, a field operator filters one column, anything else is free text. */
  function TokenResult(u: seq<Entry>, tok: string): (r: Result<RecordSet>)
    requires WellFormed(u)
    ensures r.Ok? ==> Within(r.value, u)
    decreases |tok|, 0, 0
  {
    if |tok| > 0 && tok[0] == '-' then
      var sub :- TokenResult(u, tok[1..]);
      Complement(sub, u)
    else if |tok| > 0 && tok[0] == '(' then
      if tok[|tok| - 1] != ')' then Err(UnclosedGroup(tok))
      else QueryResult(u, tok[1..|tok| - 1])
    else
      match FirstOperator(tok)
      case NoOperator => Ok(Some(AllFieldsHits(u, tok)))
      case Operator(op) => FieldComparison(u, tok, op)
  }

  /** The operator branch of `_QueryOneToken`: every occurrence of the operator becomes a space,
      the token must then be two words, and it is split at its first space into field and query. */
  function FieldComparison(u: seq<Entry>, tok: string, op: Op): (r: Result<RecordSet>)
    requires WellFormed(u)
    ensures r.Ok? ==> r.value.Some? && IsSubseq(r.value.rows, u) && Within(r.value, u)
  {
    var t := ReplaceAll(tok, OpText(op), " ");
    if WordCount(t) != 2 then Err(MalformedComparison(tok))
    else
      match SplitAtFirstSpace(t)
      case NoSpace => Err(MalformedComparison(tok))
      case Parts(field, query) =>
        var rows :- OneFieldHits(u, field, op, query);
        SubseqMembers(rows, u);
        Ok(Some(rows))
  }

  /** `QueryHelper.Query`: the universe for an empty query, one token directly, otherwise the
      union of the AND-groups that `OR` separates. */
  function QueryResult(u: seq<Entry>, q: string): (r: Result<RecordSet>)
    requires WellFormed(u)
    ensures r.Ok? ==> Within(r.value, u)
    decreases |q|, 2, 0
  {
    var toks :- Tokens(q);
    if toks == [] then Ok(Some(u))
    else if |toks| == 1 then TokenResult(u, toks[0])
    else
      var groups :- AndGroups(u, toks, 0, All, [], |q|);
      Ok(UnionAll(u, groups))
  }

  /** A query of two tokens or more is the union of the groups that the token loop collects. */
  lemma QueryOfGroups(u: seq<Entry>, q: string, toks: seq<string>)
    requires WellFormed(u) && Tokens(q) == Ok(toks) && |toks| >= 2
    ensures forall t :: t in toks ==> |t| <= |q|
    ensures var r := AndGroups(u, toks, 0, All, [], |q|);
            QueryResult(u, q) == if r.Ok? then Ok(UnionAll(u, r.value)) else Err(r.error)
  {
  }

  /** The token loop of `Query` from token `i`, with `acc` the current AND-group and `groups` the
      closed ones: `OR` closes a group (and fails on a group that is still universal), any other
      token is intersected into the group. */
  function AndGroups(u: seq<Entry>, toks: seq<string>, i: nat, acc: RecordSet,
                     groups: seq<RecordSet>, bound: nat): (r: Result<seq<RecordSet>>)
    requires WellFormed(u) && i <= |toks|
    requires forall t :: t in toks ==> |t| <= bound
    requires Within(acc, u) && forall g :: g in groups ==> Within(g, u)
    ensures r.Ok? ==> forall g :: g in r.value ==> Within(g, u)
    decreases bound, 1, |toks| - i
  {
    if i == |toks| then Ok(groups + [acc])
    else if toks[i] == "OR" then
      if acc.All? then Err(MisplacedOr)
      else AndGroups(u, toks, i + 1, All, groups + [acc], bound)
    else
      var v :- TokenResult(u, toks[i]);
      AndGroups(u, toks, i + 1, Intersection(acc, v), groups, bound)
  }

  /** One token of the token loop: an `OR` closes the open group, any other token narrows it. */
  lemma AndGroupsStep(u: seq<Entry>, toks: seq<string>, i: nat, acc: RecordSet,
                      groups: seq<RecordSet>, bound: nat)
    requires WellFormed(u) && i < |toks|
    requires forall t :: t in toks ==> |t| <= bound
    requires Within(acc, u) && forall g :: g in groups ==> Within(g, u)
    ensures forall g :: g in groups + [acc] ==> Within(g, u)
    ensures TokenResult(u, toks[i]).Ok? ==> Within(Intersection(acc, TokenResult(u, toks[i]).value), u)
    ensures AndGroups(u, toks, i, acc, groups, bound) ==
              if toks[i] == "OR" then
                if acc.All? then Err(MisplacedOr) else AndGroups(u, toks, i + 1, All, groups + [acc], bound)
              else
                var v := TokenResult(u, toks[i]);
                if v.Err? then Err(v.error) else AndGroups(u, toks, i + 1, Intersection(acc, v.value), groups, bound)
  {
    assert toks[i] in toks;
  }

  /** The union loop of `Query`: fold `Union` over the groups, starting from the empty list. */
  function UnionAll(u: seq<Entry>, groups: seq<RecordSet>): (r: RecordSet)
    requires WellFormed(u) && forall g :: g in groups ==> Within(g, u)
    ensures Within(r, u)
  {
    if groups == [] then Some([])
    else
      var init := groups[..|groups| - 1];
      assert forall g :: g in init ==> g in groups;
      var prev := UnionAll(u, init);
      var last := groups[|groups| - 1];
      WithinHasIds(prev, u);
      WithinHasIds(last, u);
      UnionOf(prev, last)
  }

  /** `_QueryOneToken`. It repeats the dispatch of `TokenResult` because its branches call the loop
      methods `FindAllFields`, `FindOneField` and `Query`, which a function cannot call. */
  method QueryOneToken(u: seq<Entry>, tok: string) returns (r: Result<RecordSet>)
    requires WellFormed(u)
    ensures r == TokenResult(u, tok)
    decreases |tok|, 0
  {
    if |tok| > 0 && tok[0] == '-' {
      var sub := QueryOneToken(u, tok[1..]);
      if sub.Err? {
        return Err(sub.error);
      }
      return Complement(sub.value, u);
    }
    if |tok| > 0 && tok[0] == '(' {
      if tok[|tok| - 1] != ')' {
        return Err(UnclosedGroup(tok));
      }
      r := Query(u, tok[1..|tok| - 1]);
      return;
    }
    match FirstOperator(tok)
    case NoOperator =>
      var rows := FindAllFields(u, tok);
      return Ok(Some(rows));
    case Operator(op) =>
      var t := ReplaceAll(tok, OpText(op), " ");
      if WordCount(t) != 2 {
        return Err(MalformedComparison(tok));
      }
      match SplitAtFirstSpace(t)
      case NoSpace =>
        return Err(MalformedComparison(tok));
      case Parts(field, query) =>
        var rows := FindOneField(u, field, op, query);
        if rows.Err? {
          return Err(rows.error);
        }
        return Ok(Some(rows.value));
  }

  /** `QueryHelper.Query`: tokenize, then the token loop and the union loop below. */
  method Query(u: seq<Entry>, q: string) returns (r: Result<RecordSet>)
    requires WellFormed(u)
    ensures r == QueryResult(u, q)
    decreases |q|, 2
  {
    var toks := Tokenize(q);
    if toks.Err? {
      return Err(toks.error);
    }
    var tokens := toks.value;
    if tokens == [] {
      return Ok(Some(u));
    }
    if |tokens| == 1 {
      r := QueryOneToken(u, tokens[0]);
      return;
    }
    var groups := CollectGroups(u, tokens, |q|);
    if groups.Err? {
      return Err(groups.error);
    }
    var result := UniteGroups(u, groups.value);
    return Ok(result);
  }

  /** The token loop of `Query`: `tmp` folds the tokens of one AND-group, `OR` closes it. */
  method CollectGroups(u: seq<Entry>, tokens: seq<string>, bound: nat)
    returns (r: Result<seq<RecordSet>>)
    requires WellFormed(u) && forall t :: t in tokens ==> |t| <= bound
    ensures r == AndGroups(u, tokens, 0, All, [], bound)
    decreases bound, 1
  {
    var tmp := All;
    var groups: seq<RecordSet> := [];
    for k := 0 to |tokens|
      invariant Within(tmp, u) && forall g :: g in groups ==> Within(g, u)
      invariant AndGroups(u, tokens, k, tmp, groups, bound) == AndGroups(u, tokens, 0, All, [], bound)
    {
      if tokens[k] == "OR" {
        if tmp.All? {
          return Err(MisplacedOr);
        }
        groups := groups + [tmp];
        tmp := All;
      } else {
        var v := QueryOneToken(u, tokens[k]);
        if v.Err? {
          return Err(v.error);
        }
        tmp := Intersection(tmp, v.value);
      }
    }
    return Ok(groups + [tmp]);
  }

  /** The union loop of `Query`: `result` starts empty and absorbs each group in turn. */
  method UniteGroups(u: seq<Entry>, groups: seq<RecordSet>) returns (result: RecordSet)
    requires WellFormed(u) && forall g :: g in groups ==> Within(g, u)
    ensures result == UnionAll(u, groups)
  {
    result := Some([]);
    for k := 0 to |groups|
      invariant result == UnionAll(u, groups[..k])
    {
      assert groups[..k + 1][..k] == groups[..k];
      WithinHasIds(result, u);
      WithinHasIds(groups[k], u);
      result := Union(result, groups[k]);
    }
    assert groups[..|groups|] == groups;
  }
}
