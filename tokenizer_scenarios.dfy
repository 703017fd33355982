/** The tokenizer's unit-test inputs, worked through the tokenizer laws. */
module TokenizerScenarios {
  import opened Results
  import opened Text
  import opened Tokenizer
  import opened QueryText

  /** An unclosed `(` is rejected. */
  lemma UnclosedParenthesis()
    ensures Tokens("( () ") == Err(MissingRightParentheses)
  {
    assert NeverNegative(" ", 1) && FinalDepth(" ", 1) == 1 by { assert " "[1..] == ""; }
    assert NeverNegative(") ", 2) && FinalDepth(") ", 2) == 1 by { assert ") "[1..] == " "; }
    assert NeverNegative("() ", 1) && FinalDepth("() ", 1) == 1 by { assert "() "[1..] == ") "; }
    assert NeverNegative(" () ", 1) && FinalDepth(" () ", 1) == 1 by { assert " () "[1..] == "() "; }
    assert NeverNegative("( () ", 0) && FinalDepth("( () ", 0) == 1 by { assert "( () "[1..] == " () "; }
    TokensBalance("( () ");
  }

  /** A `)` with no `(` left to close is rejected. */
  lemma SurplusParenthesis()
    ensures Tokens("( )) ") == Err(TooManyRightParentheses)
  {
    assert !NeverNegative(") ", 0) by { assert Step(0, ')') < 0; }
    assert !NeverNegative(")) ", 1) by { assert ")) "[1..] == ") "; }
    assert !NeverNegative(" )) ", 1) by { assert " )) "[1..] == ")) "; }
    assert !NeverNegative("( )) ", 0) by { assert "( )) "[1..] == " )) "; }
    TokensBalance("( )) ");
  }

  /** A text in parentheses after a dash is a bare token. */
  lemma DashWrappedBare(t: string, inner: string)
    requires t == "-" + "(" + inner + ")" && '(' !in inner && ')' !in inner
    ensures BareToken(t)
  {
    WrappedToken("-", inner);
  }

  lemma FirstTokenBare()
    ensures BareToken("-(拉麵 OR amount>=500)")
  {
    FirstTokenParts();
    DashWrappedBare("-(拉麵 OR amount>=500)", "拉麵 OR amount>=500");
  }

  lemma ThirdTokenBare()
    ensures BareToken("(date>2020-06-25)")
  {
    ThirdTokenParts();
    WrappedToken("", "date>2020-06-25");
  }

  /** A parenthesis-free, space-free text that neither starts nor ends with whitespace is a bare token. */
  lemma PlainBare(w: string)
    requires w != [] && '(' !in w && ')' !in w && ' ' !in w
    requires !IsSpace(w[0]) && !IsSpace(w[|w| - 1])
    ensures BareToken(w)
  {
    PlainToken(w);
  }

  lemma PlainTokensBare()
    ensures BareToken("OR") && BareToken("--amount>=100")
  {
    PlainTokensParts();
    PlainBare("OR");
    PlainBare("--amount>=100");
  }

  /** The last character of a concatenation is that of its right operand. */
  lemma LastOfAppend(a: string, b: string)
    requires b != []
    ensures a + b != [] && (a + b)[|a + b| - 1] == b[|b| - 1]
  {
  }

  /** Two bare tokens separated by a run of whitespace starting with a space are tokenized back. */
  lemma TwoTokens(t3: string, sep: string, t4: string)
    requires BareToken(t3) && BareToken(t4)
    requires sep != [] && sep[0] == ' ' && AllSpace(sep)
    ensures Tokens(t3 + sep + t4) == Ok([t3, t4])
  {
    TokensOfToken(t4);
    TokensOfLeadingToken(t3, sep, t4);
    assert [t3] + [t4] == [t3, t4];
  }

  /** Three bare tokens, the first two separated by a single space. */
  lemma ThreeTokens(t2: string, t3: string, sep: string, t4: string)
    requires BareToken(t2) && BareToken(t3) && BareToken(t4)
    requires sep != [] && sep[0] == ' ' && AllSpace(sep)
    ensures Tokens(t2 + " " + (t3 + sep + t4)) == Ok([t2, t3, t4])
  {
    TwoTokens(t3, sep, t4);
    LastOfAppend(t3 + sep, t4);
    TokensOfLeadingToken(t2, " ", t3 + sep + t4);
    assert [t2] + [t3, t4] == [t2, t3, t4];
  }

  /** Prepending one element to a three-element display. */
  lemma ConsThree<T>(a: T, b: T, c: T, d: T)
    ensures [a] + [b, c, d] == [a, b, c, d]
  {
  }

  /** Four bare tokens after leading whitespace, separated by a space, a space, and a run of
      whitespace starting with a space, are tokenized back. */
  lemma PaddedFourTokens(lead: string, t1: string, t2: string, t3: string, sep: string, t4: string)
    requires AllSpace(lead) && BareToken(t1) && BareToken(t2) && BareToken(t3) && BareToken(t4)
    requires sep != [] && sep[0] == ' ' && AllSpace(sep)
    ensures Tokens(lead + (t1 + " " + (t2 + " " + (t3 + sep + t4)))) == Ok([t1, t2, t3, t4])
  {
    var r2 := t2 + " " + (t3 + sep + t4);
    ThreeTokens(t2, t3, sep, t4);
    LastOfAppend(t3 + sep, t4);
    LastOfAppend(t2 + " ", t3 + sep + t4);
    TokensOfLeadingToken(t1, " ", r2);
    TokensAfterSpaces(lead, t1 + " " + r2);
    ConsThree(t1, t2, t3, t4);
  }

  /** Two spaces are whitespace starting with a space. */
  lemma TwoSpaces()
    ensures AllSpace("  ") && "  " != [] && "  "[0] == ' '
  {
  }

  /** The mixed query of the tokenizer test: padding around the query, spaces inside parentheses, and
      two spaces before the last token. */
  lemma TokenizeExample()
    ensures Tokens("  -(拉麵 OR amount>=500) OR (date>2020-06-25)  --amount>=100")
            == Ok(["-(拉麵 OR amount>=500)", "OR", "(date>2020-06-25)", "--amount>=100"])
  {
    FirstTokenBare();
    PlainTokensBare();
    ThirdTokenBare();
    TwoSpaces();
    MixedQueryParts();
    PaddedFourTokens("  ", "-(拉麵 OR amount>=500)", "OR", "(date>2020-06-25)", "  ", "--amount>=100");
  }
}
