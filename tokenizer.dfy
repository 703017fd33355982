/** Splitting a query into top-level tokens while tracking parenthesis depth. */
module Tokenizer {
  import opened Results
  import opened Text

  /** The depth after reading `c` at depth `d`. */
  function Step(d: int, c: char): int
  {
    if c == '(' then d + 1 else if c == ')' then d - 1 else d
  }

  /** Reading `t` from depth `d` never takes the depth below zero. */
  predicate NeverNegative(t: string, d: int)
    decreases |t|
  {
    t == [] || (Step(d, t[0]) >= 0 && NeverNegative(t[1..], Step(d, t[0])))
  }

  /** The depth after reading all of `t` from depth `d`. */
  function FinalDepth(t: string, d: int): int
    decreases |t|
  {
    if t == [] then d else FinalDepth(t[1..], Step(d, t[0]))
  }

  /** Every `)` closes an earlier `(` and every `(` is closed. */
  predicate Balanced(t: string)
  {
    NeverNegative(t, 0) && FinalDepth(t, 0) == 0
  }

  /** A space of `t` that the tokenizer would split at: a `' '` read at depth zero. */
  predicate TopLevelSpaceAt(t: string, i: int)
  {
    0 <= i < |t| && t[i] == ' ' && FinalDepth(t[..i + 1], 0) == 0
  }

  /** The scan of the `for` loop over a stripped, non-empty text `s`, from position `i` at depth `depth`. */
  function Scan(s: string, i: nat, depth: int): (r: Result<seq<string>>)
    requires i <= |s| && 0 <= depth
    requires s != [] && s[0] != ' '
    ensures r.Ok? ==> r.value != [] && forall t :: t in r.value ==> 0 < |t| <= |s|
    decreases |s|, 0, |s| - i
  {
    if i == |s| then
      if depth > 0 then Err(MissingRightParentheses) else Ok([s])
    else
      var d := Step(depth, s[i]);
      if d < 0 then Err(TooManyRightParentheses)
      else if s[i] == ' ' && d == 0 then
        var rest :- Tokens(s[i + 1..]);
        Ok([s[..i]] + rest)
      else Scan(s, i + 1, d)
  }

  /** Python `Tokenize(s)`: the top-level tokens of `s`, or the parenthesis error it raises. */
  function Tokens(s: string): (r: Result<seq<string>>)
    ensures r.Ok? ==> forall t :: t in r.value ==> 0 < |t| <= |s|
    ensures r == Ok([]) <==> AllSpace(s)
    decreases |s|, 1, 0
  {
    var t := Strip(s);
    if t == [] then Ok([]) else Scan(t, 0, 0)
  }

  /** The tokens joined back with single spaces. */
  function JoinTokens(toks: seq<string>): string
  {
    if toks == [] then ""
    else if |toks| == 1 then toks[0]
    else toks[0] + " " + JoinTokens(toks[1..])
  }

  /** The loop of `Tokenize`: a depth counter, and a recursive call on the rest at each top-level space. */
  method Tokenize(s0: string) returns (r: Result<seq<string>>)
    ensures r == Tokens(s0)
    decreases |s0|
  {
    var s := Strip(s0);
    if s == [] {
      return Ok([]);
    }
    var cnt := 0;
    for i := 0 to |s|
      invariant 0 <= cnt
      invariant Scan(s, i, cnt) == Tokens(s0)
    {
      if s[i] == '(' {
        cnt := cnt + 1;
      }
      if s[i] == ')' {
        cnt := cnt - 1;
      }
      if cnt < 0 {
        return Err(TooManyRightParentheses);
      }
      if s[i] == ' ' && cnt == 0 {
        var rest := Tokenize(s[i + 1..]);
        if rest.Err? {
          return Err(rest.error);
        }
        return Ok([s[..i]] + rest.value);
      }
    }
    if cnt > 0 {
      return Err(MissingRightParentheses);
    }
    return Ok([s]);
  }

  // ---- Depth bookkeeping ----

  lemma {:induction false} FinalDepthAppend(a: string, b: string, d: int)
    ensures FinalDepth(a + b, d) == FinalDepth(b, FinalDepth(a, d))
    decreases |a|
  {
    if a == [] {
      assert a + b == b;
    } else {
      assert (a + b)[1..] == a[1..] + b;
      FinalDepthAppend(a[1..], b, Step(d, a[0]));
    }
  }

  lemma {:induction false} NeverNegativeAppend(a: string, b: string, d: int)
    ensures NeverNegative(a + b, d) <==> NeverNegative(a, d) && NeverNegative(b, FinalDepth(a, d))
    decreases |a|
  {
    if a == [] {
      assert a + b == b;
    } else {
      assert (a + b)[1..] == a[1..] + b;
      NeverNegativeAppend(a[1..], b, Step(d, a[0]));
    }
  }

  /** Whitespace does not move the depth. */
  lemma {:induction false} SpaceNeutral(w: string, d: int)
    requires AllSpace(w) && 0 <= d
    ensures NeverNegative(w, d) && FinalDepth(w, d) == d
    decreases |w|
  {
    if w != [] {
      SpaceNeutral(w[1..], d);
    }
  }

  lemma {:induction false} NeverNegativeEndsNonNegative(t: string, d: int)
    requires NeverNegative(t, d) && 0 <= d
    ensures FinalDepth(t, d) >= 0
    decreases |t|
  {
    if t != [] {
      NeverNegativeEndsNonNegative(t[1..], Step(d, t[0]));
    }
  }

  /** Whitespace around a text changes neither its depth profile nor its final depth. */
  lemma PaddingNeutral(before: string, t: string, after: string)
    requires AllSpace(before) && AllSpace(after)
    ensures NeverNegative(before + t + after, 0) <==> NeverNegative(t, 0)
    ensures NeverNegative(t, 0) ==> FinalDepth(before + t + after, 0) == FinalDepth(t, 0)
  {
    var s := before + t + after;
    assert s == before + (t + after);
    SpaceNeutral(before, 0);
    NeverNegativeAppend(before, t + after, 0);
    FinalDepthAppend(before, t + after, 0);
    NeverNegativeAppend(t, after, 0);
    FinalDepthAppend(t, after, 0);
    if NeverNegative(t, 0) {
      NeverNegativeEndsNonNegative(t, 0);
      SpaceNeutral(after, FinalDepth(t, 0));
    }
  }

  /** Stripping does not change whether a text is balanced, nor whether it goes negative. */
  lemma StripKeepsBalance(s: string)
    ensures NeverNegative(Strip(s), 0) <==> NeverNegative(s, 0)
    ensures Balanced(Strip(s)) <==> Balanced(s)
  {
    var before, after := StripParts(s);
    PaddingNeutral(before, Strip(s), after);
  }

  // ---- Which inputs fail ----

  lemma {:induction false} ScanBalance(s: string, i: nat, d: int)
    requires i <= |s| && 0 <= d && s != [] && s[0] != ' '
    ensures Scan(s, i, d).Ok? <==> NeverNegative(s[i..], d) && FinalDepth(s[i..], d) == 0
    ensures Scan(s, i, d) == Err(TooManyRightParentheses) <==> !NeverNegative(s[i..], d)
    ensures Scan(s, i, d).Ok? || Scan(s, i, d) == Err(TooManyRightParentheses)
            || Scan(s, i, d) == Err(MissingRightParentheses)
    decreases |s|, 0, |s| - i
  {
    if i < |s| {
      var d' := Step(d, s[i]);
      assert s[i..][0] == s[i] && s[i..][1..] == s[i + 1..];
      if d' < 0 {
      } else if s[i] == ' ' && d' == 0 {
        TokensBalance(s[i + 1..]);
        StripKeepsBalance(s[i + 1..]);
      } else {
        ScanBalance(s, i + 1, d');
      }
    }
  }

  /** Tokenizing succeeds exactly on balanced text; a `)` too many is reported where it occurs,
      a missing `)` only when nothing went negative. */
  lemma {:induction false} TokensBalance(s: string)
    ensures Tokens(s).Ok? <==> Balanced(s)
    ensures Tokens(s) == Err(TooManyRightParentheses) <==> !NeverNegative(s, 0)
    ensures Tokens(s) == Err(MissingRightParentheses) <==> NeverNegative(s, 0) && FinalDepth(s, 0) != 0
    decreases |s|, 1, 0
  {
    var t := Strip(s);
    StripKeepsBalance(s);
    if t == [] {
      SpaceNeutral(s, 0);
    } else {
      ScanBalance(t, 0, 0);
      assert t[0..] == t;
    }
  }

  // ---- What the tokens look like ----

  /** A token: non-empty, balanced, and without a space at depth zero. */
  predicate WellFormedToken(t: string)
  {
    t != [] && Balanced(t) && forall i :: 0 <= i < |t| ==> !TopLevelSpaceAt(t, i)
  }

  /** Reading one more character of `s` from the depth reached after its first `i` characters. */
  lemma DepthStep(s: string, i: nat, d: int)
    requires i < |s| && d == FinalDepth(s[..i], 0)
    ensures FinalDepth(s[..i + 1], 0) == Step(d, s[i])
    ensures NeverNegative(s[..i + 1], 0) <==> NeverNegative(s[..i], 0) && Step(d, s[i]) >= 0
  {
    assert s[..i + 1] == s[..i] + [s[i]];
    FinalDepthAppend(s[..i], [s[i]], 0);
    NeverNegativeAppend(s[..i], [s[i]], 0);
    assert [s[i]][1..] == [];
  }

  /** A prefix of `s` has the same top-level spaces as `s` itself, up to its length. */
  lemma PrefixSpaces(s: string, i: nat, j: nat)
    requires j < i <= |s|
    ensures TopLevelSpaceAt(s[..i], j) <==> TopLevelSpaceAt(s, j)
  {
    assert s[..i][..j + 1] == s[..j + 1];
  }

  /** The text before a top-level space, read without going negative, is a well-formed token. */
  lemma HeadIsToken(s: string, i: nat)
    requires 0 < i <= |s| && FinalDepth(s[..i], 0) == 0 && NeverNegative(s[..i], 0)
    requires forall j :: 0 <= j < i ==> !TopLevelSpaceAt(s, j)
    ensures WellFormedToken(s[..i])
  {
    var head := s[..i];
    forall j | 0 <= j < |head| ensures !TopLevelSpaceAt(head, j) {
      PrefixSpaces(s, i, j);
    }
  }

  lemma {:induction false} ScanShape(s: string, i: nat, d: int)
    requires i <= |s| && 0 <= d && s != [] && s[0] != ' '
    requires d == FinalDepth(s[..i], 0) && NeverNegative(s[..i], 0)
    requires forall j :: 0 <= j < i ==> !TopLevelSpaceAt(s, j)
    ensures Scan(s, i, d).Ok? ==> forall t :: t in Scan(s, i, d).value ==> WellFormedToken(t)
    decreases |s|, 0, |s| - i
  {
    if i == |s| {
      if d == 0 {
        HeadIsToken(s, i);
        assert s[..i] == s;
      }
    } else {
      var d' := Step(d, s[i]);
      DepthStep(s, i, d);
      if d' < 0 {
      } else if s[i] == ' ' && d' == 0 {
        HeadIsToken(s, i);
        TokensShape(s[i + 1..]);
      } else {
        assert !TopLevelSpaceAt(s, i);
        ScanShape(s, i + 1, d');
      }
    }
  }

  /** Every token is non-empty, balanced and free of top-level spaces. */
  lemma {:induction false} TokensShape(s: string)
    ensures Tokens(s).Ok? ==> forall t :: t in Tokens(s).value ==> WellFormedToken(t)
    decreases |s|, 1, 0
  {
    var t := Strip(s);
    if t != [] {
      assert t[..0] == [];
      ScanShape(t, 0, 0);
    }
  }

  // ---- Joining the tokens gives the input back ----

  /** Each top-level space of `s` stands alone, followed by a non-whitespace character. */
  predicate SingleSpaced(s: string)
  {
    forall i :: 0 <= i < |s| && TopLevelSpaceAt(s, i) ==> i + 1 < |s| && !IsSpace(s[i + 1])
  }

  /** What follows a top-level space of a stripped, single-spaced text is stripped and single-spaced. */
  lemma RestAfterSpace(s: string, i: nat)
    requires Strip(s) == s && SingleSpaced(s) && TopLevelSpaceAt(s, i)
    ensures i + 1 < |s| && !IsSpace(s[i + 1])
    ensures Strip(s[i + 1..]) == s[i + 1..] && SingleSpaced(s[i + 1..])
  {
    var rest := s[i + 1..];
    assert rest != [] && !IsSpace(rest[0]) && rest[|rest| - 1] == s[|s| - 1];
    StripIdentity(rest);
    forall j | 0 <= j < |rest| && TopLevelSpaceAt(rest, j)
      ensures j + 1 < |rest| && !IsSpace(rest[j + 1])
    {
      assert s[..i + 1 + j + 1] == s[..i + 1] + rest[..j + 1];
      FinalDepthAppend(s[..i + 1], rest[..j + 1], 0);
      assert TopLevelSpaceAt(s, i + 1 + j);
    }
  }

  /** Joining the text before a space with the tokens of the text after it. */
  lemma JoinAtSpace(s: string, i: nat, toks: seq<string>)
    requires i + 1 < |s| && s[i] == ' ' && toks != [] && JoinTokens(toks) == s[i + 1..]
    ensures JoinTokens([s[..i]] + toks) == s
  {
    assert ([s[..i]] + toks)[1..] == toks;
    assert s == s[..i] + " " + s[i + 1..];
  }

  lemma {:induction false} ScanJoin(s: string, i: nat, d: int)
    requires i <= |s| && 0 <= d && s != [] && s[0] != ' '
    requires Strip(s) == s && SingleSpaced(s)
    requires d == FinalDepth(s[..i], 0)
    ensures Scan(s, i, d).Ok? ==> JoinTokens(Scan(s, i, d).value) == s
    decreases |s|, 0, |s| - i
  {
    if i < |s| {
      var d' := Step(d, s[i]);
      DepthStep(s, i, d);
      if d' < 0 {
      } else if s[i] == ' ' && d' == 0 {
        assert TopLevelSpaceAt(s, i);
        var rest := s[i + 1..];
        RestAfterSpace(s, i);
        TokensJoin(rest);
        if Tokens(rest).Ok? {
          var toks := Tokens(rest).value;
          assert toks != [] by {
            assert !AllSpace(rest) by { assert !IsSpace(rest[0]); }
          }
          JoinAtSpace(s, i, toks);
          assert Scan(s, i, d) == Ok([s[..i]] + toks);
        }
      } else {
        ScanJoin(s, i + 1, d');
      }
    } else {
      assert s[..i] == s;
    }
  }

  /** For a stripped query whose top-level separators are single spaces, the tokens joined
      with `' '` give the query back. */
  lemma {:induction false} TokensJoin(s: string)
    requires Strip(s) == s && SingleSpaced(s)
    ensures Tokens(s).Ok? ==> JoinTokens(Tokens(s).value) == s
    decreases |s|, 1, 0
  {
    if s != [] {
      assert s[..0] == [];
      ScanJoin(s, 0, 0);
    }
  }

  // ---- Tokenizing joined tokens gives the tokens back ----

  /** A text without parentheses leaves the depth where it was. */
  lemma {:induction false} ParenFree(w: string, d: int)
    requires '(' !in w && ')' !in w && 0 <= d
    ensures NeverNegative(w, d) && FinalDepth(w, d) == d
    decreases |w|
  {
    if w != [] {
      assert w[0] in w;
      assert forall c :: c in w[1..] ==> c in w;
      ParenFree(w[1..], d);
    }
  }

  /** A word without parentheses or spaces is a token. */
  lemma PlainToken(w: string)
    requires w != [] && '(' !in w && ')' !in w && ' ' !in w
    ensures WellFormedToken(w)
    ensures !IsSpace(w[0]) && !IsSpace(w[|w| - 1]) ==> BareToken(w)
  {
    ParenFree(w, 0);
    forall i | 0 <= i < |w| ensures !TopLevelSpaceAt(w, i) {
      assert w[i] in w;
    }
  }

  /** A plain prefix followed by a parenthesized parenthesis-free text is a token, whatever spaces the
      text holds. */
  lemma WrappedToken(p: string, inner: string)
    requires '(' !in p && ')' !in p && ' ' !in p && '(' !in inner && ')' !in inner
    ensures WellFormedToken(p + "(" + inner + ")")
    ensures p == [] || !IsSpace(p[0]) ==> BareToken(p + "(" + inner + ")")
  {
    var a := p + "(";
    var b := a + inner;
    var t := b + ")";
    ParenFree(p, 0);
    ParenFree(inner, 1);
    FinalDepthAppend(p, "(", 0);
    NeverNegativeAppend(p, "(", 0);
    FinalDepthAppend(a, inner, 0);
    NeverNegativeAppend(a, inner, 0);
    FinalDepthAppend(b, ")", 0);
    NeverNegativeAppend(b, ")", 0);
    forall j | 0 <= j < |t| ensures !TopLevelSpaceAt(t, j) {
      if j < |p| {
        assert t[j] == p[j] && p[j] in p;
      } else if j == |p| {
        assert t[j] == '(';
      } else if j < |b| {
        var k := j + 1 - |a|;
        assert t[..j + 1] == a + inner[..k];
        assert forall c :: c in inner[..k] ==> c in inner;
        ParenFree(inner[..k], 1);
        FinalDepthAppend(a, inner[..k], 0);
      } else {
        assert t[j] == ')';
      }
    }
    assert t[0] == if p == [] then '(' else p[0];
    assert t[|t| - 1] == ')';
  }

  /** The scan passes over a token at the front of `s` without splitting, and ends it at depth zero. */
  lemma {:induction false} ScanOverToken(s: string, t: string, i: nat, d: int)
    requires WellFormedToken(t) && |t| <= |s| && s[..|t|] == t && s[0] != ' '
    requires i <= |t| && 0 <= d && d == FinalDepth(t[..i], 0) && NeverNegative(t[..i], 0)
    ensures Scan(s, i, d) == Scan(s, |t|, 0)
    decreases |t| - i
  {
    if i == |t| {
      assert t[..i] == t;
    } else {
      DepthStep(t, i, d);
      var d' := Step(d, t[i]);
      assert t == t[..i + 1] + t[i + 1..];
      NeverNegativeAppend(t[..i + 1], t[i + 1..], 0);
      NeverNegativeEndsNonNegative(t[..i + 1], 0);
      assert s[i] == t[i];
      assert !TopLevelSpaceAt(t, i);
      ScanOverToken(s, t, i + 1, d');
    }
  }

  /** A token with no whitespace at either end. */
  predicate BareToken(t: string)
  {
    WellFormedToken(t) && !IsSpace(t[0]) && !IsSpace(t[|t| - 1])
  }

  /** Leading whitespace does not change the tokens. */
  lemma TokensAfterSpaces(w: string, r: string)
    requires AllSpace(w)
    ensures Tokens(w + r) == Tokens(r)
  {
    StripAfterSpaces(w, r);
  }

  /** A bare token on its own is one token. */
  lemma TokensOfToken(t: string)
    requires BareToken(t)
    ensures Tokens(t) == Ok([t])
  {
    StripIdentity(t);
    assert t[..0] == [] && t[..|t|] == t;
    ScanOverToken(t, t, 0, 0);
  }

  /** A token followed by whitespace that starts with a space is split off the front; the rest is
      tokenized on its own, its leading whitespace stripped. */
  lemma TokensOfLeadingToken(t: string, sep: string, rest: string)
    requires WellFormedToken(t) && !IsSpace(t[0])
    requires sep != [] && sep[0] == ' ' && AllSpace(sep)
    requires rest != [] && !IsSpace(rest[|rest| - 1])
    ensures var r := Tokens(rest);
            Tokens(t + sep + rest) == if r.Ok? then Ok([t] + r.value) else r
  {
    var s := t + sep + rest;
    assert s[0] == t[0] && s[|s| - 1] == rest[|rest| - 1];
    StripIdentity(s);
    SplitAfterToken(t, sep, rest);
    assert t[..0] == [];
    ScanOverToken(s, t, 0, 0);
    SpacesAfterFirst(sep);
    StripAfterSpaces(sep[1..], rest);
  }

  /** A token followed by a separator starting with a space, and the text after that space. */
  lemma SplitAfterToken(t: string, sep: string, rest: string)
    requires sep != [] && sep[0] == ' '
    ensures var s := t + sep + rest; s[..|t|] == t && s[|t|] == ' ' && s[|t| + 1..] == sep[1..] + rest
  {
  }

  /** Dropping the first character of whitespace leaves whitespace. */
  lemma SpacesAfterFirst(w: string)
    requires w != [] && AllSpace(w)
    ensures AllSpace(w[1..])
  {
    forall i | 0 <= i < |w[1..]| ensures IsSpace(w[1..][i]) {
      assert w[1..][i] == w[i + 1];
    }
  }

  lemma {:induction false} JoinTokensEnd(toks: seq<string>)
    requires toks != [] && forall t :: t in toks ==> BareToken(t)
    ensures var s := JoinTokens(toks); s != [] && !IsSpace(s[|s| - 1])
  {
    assert toks[0] in toks;
    if |toks| > 1 {
      assert forall t :: t in toks[1..] ==> t in toks;
      JoinTokensEnd(toks[1..]);
    }
  }

  /** Tokenizing bare tokens joined with single spaces gives the tokens back. */
  lemma {:induction false} TokensOfJoin(toks: seq<string>)
    requires toks != [] && forall t :: t in toks ==> BareToken(t)
    ensures Tokens(JoinTokens(toks)) == Ok(toks)
  {
    assert toks[0] in toks;
    if |toks| == 1 {
      TokensOfToken(toks[0]);
      assert toks == [toks[0]];
    } else {
      assert forall t :: t in toks[1..] ==> t in toks;
      TokensOfJoin(toks[1..]);
      JoinTokensEnd(toks[1..]);
      TokensOfJoinCons(toks);
    }
  }

  /** The step of `TokensOfJoin`: a bare token in front of joined tokens that read back. */
  lemma TokensOfJoinCons(toks: seq<string>)
    requires |toks| > 1 && BareToken(toks[0]) && Tokens(JoinTokens(toks[1..])) == Ok(toks[1..])
    requires var s := JoinTokens(toks[1..]); s != [] && !IsSpace(s[|s| - 1])
    ensures Tokens(JoinTokens(toks)) == Ok(toks)
  {
    TokensOfLeadingToken(toks[0], " ", JoinTokens(toks[1..]));
    assert [toks[0]] + toks[1..] == toks;
  }
}
