/** The spelling of the tokenizer test's mixed query, as facts about its characters alone. */
module QueryText {

  /** Appending two concatenations, regrouped. */
  lemma Regroup(a: string, b: string, c: string, d: string)
    ensures (a + b) + (c + d) == a + ((b + c) + d)
  {
  }

  lemma DateAndAmount()
    ensures "(date>2020-06-25)  --amount>=100" == "(date>2020-06-25)" + "  " + "--amount>=100"
  {
  }

  lemma OrAndRest()
    ensures "OR (date>2020-06-25)  --amount>=100" == "OR" + " " + "(date>2020-06-25)  --amount>=100"
  {
  }

  lemma SpacedTail()
    ensures " OR (date>2020-06-25)  --amount>=100" == " " + "OR (date>2020-06-25)  --amount>=100"
  {
  }

  lemma PaddedHead()
    ensures "  -(拉麵 OR amount>=500)" == "  " + "-(拉麵 OR amount>=500)"
  {
  }

  lemma HeadAndTail()
    ensures "  -(拉麵 OR amount>=500) OR (date>2020-06-25)  --amount>=100"
            == "  -(拉麵 OR amount>=500)" + " OR (date>2020-06-25)  --amount>=100"
  {
  }

  /** The query spelled as its tokens and the whitespace between them; each literal step is a lemma of
      its own, which keeps every proof obligation about one short text. */
  lemma MixedQueryParts()
    ensures "  -(拉麵 OR amount>=500) OR (date>2020-06-25)  --amount>=100"
            == "  " + ("-(拉麵 OR amount>=500)" + " " + ("OR" + " " + ("(date>2020-06-25)" + "  " + "--amount>=100")))
  {
    DateAndAmount();
    OrAndRest();
    SpacedTail();
    PaddedHead();
    HeadAndTail();
    Regroup("  ", "-(拉麵 OR amount>=500)", " ", "OR (date>2020-06-25)  --amount>=100");
  }

  /** The first token is a dash and a parenthesis-free text in parentheses. */
  lemma FirstTokenParts()
    ensures "-(拉麵 OR amount>=500)" == "-" + "(" + "拉麵 OR amount>=500" + ")"
    ensures '(' !in "拉麵 OR amount>=500" && ')' !in "拉麵 OR amount>=500"
  {
  }

  /** The third token is a parenthesis-free text in parentheses. */
  lemma ThirdTokenParts()
    ensures "(date>2020-06-25)" == "" + "(" + "date>2020-06-25" + ")"
    ensures '(' !in "date>2020-06-25" && ')' !in "date>2020-06-25"
  {
  }

  /** The other tokens have neither parentheses nor spaces. */
  lemma PlainTokensParts()
    ensures '(' !in "OR" && ')' !in "OR" && ' ' !in "OR"
    ensures '(' !in "--amount>=100" && ')' !in "--amount>=100" && ' ' !in "--amount>=100"
  {
  }
}
