/**
 * How the spelling of a verification expression matters (internal/migrations/expression.go): outside
 * literals the case of words and names does not, what is read is lower case, and blanks, comments
 * and the character-set introducers of literals are passed over.
 */
module TokenSpelling {
  import opened Outcomes
  import opened Text
  import opened Tokenizer
  import opened ExpressionParser
  import opened Expressions
  import opened CanonicalStrings
  import opened ParsePrint
  import opened SnapshotChecks

  /** The two texts differ in the case of letters only, and are the same inside literals in single quotes. */
  predicate CaseVariant(a: string, b: string)
    decreases |a|
  {
    |a| == |b| &&
    (a == [] ||
     match First(a)
     case Skip(n) => ToLower(a[..n]) == ToLower(b[..n]) && CaseVariant(a[n..], b[n..])
     case Token(_, n) =>
       (if a[0] == '\'' then a[..n] == b[..n] else ToLower(a[..n]) == ToLower(b[..n])) && CaseVariant(a[n..], b[n..])
     case _ => ToLower(a) == ToLower(b))
  }

  lemma ToLowerParts(a: string, b: string, n: nat)
    requires n <= |a| == |b| && ToLower(a[..n]) == ToLower(b[..n]) && ToLower(a[n..]) == ToLower(b[n..])
    ensures ToLower(a) == ToLower(b)
  {
    forall i | 0 <= i < |a|
      ensures ToLower(a)[i] == ToLower(b)[i]
    {
      if i < n {
        assert ToLower(a[..n])[i] == LowerChar(a[i]) && ToLower(b[..n])[i] == LowerChar(b[i]);
      } else {
        assert ToLower(a[n..])[i - n] == LowerChar(a[i]) && ToLower(b[n..])[i - n] == LowerChar(b[i]);
      }
    }
  }

  lemma {:induction false} VariantsFold(a: string, b: string)
    requires CaseVariant(a, b)
    ensures ToLower(a) == ToLower(b)
    decreases |a|
  {
    if a != [] && (First(a).Skip? || First(a).Token?) {
      var n := First(a).width;
      VariantsFold(a[n..], b[n..]);
      ToLowerParts(a, b, n);
    }
  }

  /** Characters with equal lower case are of the same kind, and the same unless they are letters. */
  lemma SameKind(c: char, d: char)
    requires LowerChar(c) == LowerChar(d)
    ensures IsSpace(c) == IsSpace(d) && IsSpecial(c) == IsSpecial(d) && IsQuote(c) == IsQuote(d) && IsWordChar(c) == IsWordChar(d)
    ensures IsSpecial(c) || IsQuote(c) || c == '-' || c == '\n' ==> c == d
    ensures d == '-' || d == '\n' ==> c == d
  {}

  lemma SameAt(a: string, b: string, i: nat)
    requires ToLower(a) == ToLower(b) && i < |a|
    ensures |a| == |b| && LowerChar(a[i]) == LowerChar(b[i])
  {
    assert |ToLower(a)| == |ToLower(b)|;
    assert ToLower(a)[i] == ToLower(b)[i];
  }

  lemma SameTail(a: string, b: string, n: nat)
    requires ToLower(a) == ToLower(b) && n <= |a|
    ensures |a| == |b| && ToLower(a[n..]) == ToLower(b[n..]) && ToLower(a[..n]) == ToLower(b[..n])
  {
    assert |ToLower(a)| == |ToLower(b)|;
    forall i | 0 <= i < |a|
      ensures LowerChar(a[i]) == LowerChar(b[i])
    {
      SameAt(a, b, i);
    }
  }

  lemma {:induction false} SameQuoteWidth(a: string, b: string, quote: char)
    requires ToLower(a) == ToLower(b) && IsQuote(quote)
    ensures QuoteWidth(a, quote) == QuoteWidth(b, quote)
    decreases |a|
  {
    SameTail(a, b, 0);
    if a != [] {
      SameAt(a, b, 0);
      SameKind(a[0], b[0]);
      SameKind(b[0], a[0]);
      SameTail(a, b, 1);
      if a[0] != quote {
        SameQuoteWidth(a[1..], b[1..], quote);
      } else if |a| > 1 {
        SameAt(a, b, 1);
        SameKind(a[1], b[1]);
        SameKind(b[1], a[1]);
        SameTail(a, b, 2);
        SameQuoteWidth(a[2..], b[2..], quote);
      }
    }
  }

  lemma {:induction false} SameWordWidth(a: string, b: string)
    requires ToLower(a) == ToLower(b)
    ensures WordWidth(a) == WordWidth(b)
    decreases |a|
  {
    SameTail(a, b, 0);
    if a != [] {
      SameAt(a, b, 0);
      SameKind(a[0], b[0]);
      SameTail(a, b, 1);
      SameWordWidth(a[1..], b[1..]);
    }
  }

  lemma {:induction false} SameLineWidth(a: string, b: string)
    requires ToLower(a) == ToLower(b)
    ensures LineWidth(a) == LineWidth(b)
    decreases |a|
  {
    SameTail(a, b, 0);
    if a != [] {
      SameAt(a, b, 0);
      SameKind(a[0], b[0]);
      SameTail(a, b, 1);
      SameLineWidth(a[1..], b[1..]);
    }
  }

  /** The same lexeme, except for the characters of a literal. */
  predicate Alike(l: Lexeme, m: Lexeme) {
    match l
    case Skip(n) => m == Skip(n)
    case Token(_, n) => m.Token? && m.width == n
    case _ => m == l
  }

  lemma SameStart(a: string, b: string, c: char)
    requires ToLower(a) == ToLower(b) && (IsQuote(c) || c == '-')
    ensures StartsWith(a, c) == StartsWith(b, c)
  {
    SameTail(a, b, 0);
    if a != [] {
      SameAt(a, b, 0);
      SameKind(a[0], b[0]);
      SameKind(b[0], a[0]);
    }
  }

  lemma SameWord(a: string, b: string)
    requires ToLower(a) == ToLower(b)
    ensures WordLexeme(a) == WordLexeme(b)
  {
    SameWordWidth(a, b);
    SameTail(a, b, WordWidth(a));
    SameStart(a[WordWidth(a)..], b[WordWidth(a)..], '\'');
  }

  lemma SameQuoted(a: string, b: string)
    requires ToLower(a) == ToLower(b) && |a| > 0 && IsQuote(a[0]) && |b| > 0 && b[0] == a[0]
    ensures Alike(QuotedLexeme(a), QuotedLexeme(b))
    ensures a[0] != '\'' ==> QuotedLexeme(a) == QuotedLexeme(b)
  {
    SameTail(a, b, 1);
    SameQuoteWidth(a[1..], b[1..], a[0]);
    if QuotedLexeme(a).Token? {
      var n := QuotedLexeme(a).width - 1;
      SameTail(a[1..], b[1..], n - 1);
      assert a[1..][..n - 1] == a[1..n] && b[1..][..n - 1] == b[1..n];
    }
  }

  lemma SameSpecial(a: string, b: string)
    requires ToLower(a) == ToLower(b) && |a| > 0 && IsSpecial(a[0]) && |b| > 0
    ensures b[0] == a[0] && SpecialWidth(a) == SpecialWidth(b) && a[..SpecialWidth(a)] == b[..SpecialWidth(a)]
  {
    SameAt(a, b, 0);
    SameKind(a[0], b[0]);
    if |a| > 1 {
      SameAt(a, b, 1);
      SameKind(a[1], b[1]);
      SameKind(b[1], a[1]);
    }
  }

  /** Texts of the same lower case begin with the same lexeme, but for the characters of a literal. */
  lemma SameFirst(a: string, b: string)
    requires ToLower(a) == ToLower(b) && a != []
    ensures b != [] && Alike(First(a), First(b))
    ensures a[0] != '\'' ==> First(a) == First(b)
    ensures a[0] == '\'' ==> b[0] == '\''
  {
    SameTail(a, b, 1);
    SameAt(a, b, 0);
    SameKind(a[0], b[0]);
    SameKind(b[0], a[0]);
    SameStart(a[1..], b[1..], '-');
    if IsSpace(a[0]) {
    } else if a[0] == '-' && StartsWith(a[1..], '-') {
      SameLineWidth(a, b);
    } else if IsQuote(a[0]) {
      SameQuoted(a, b);
    } else if IsSpecial(a[0]) {
      SameSpecial(a, b);
    } else {
      SameWord(a, b);
    }
  }

  lemma LiteralText(a: string)
    requires a != [] && a[0] == '\'' && First(a).Token?
    ensures First(a).text == a[..First(a).width]
  {}

  /** Case does not matter outside literals: two such texts have the same tokens, or the same error. */
  lemma {:induction false} CaseVariantsLexAlike(a: string, b: string)
    requires CaseVariant(a, b)
    ensures Lex(a) == Lex(b)
    decreases |a|
  {
    VariantsFold(a, b);
    if a != [] {
      SameFirst(a, b);
      if First(a).Skip? || First(a).Token? {
        var n := First(a).width;
        CaseVariantsLexAlike(a[n..], b[n..]);
        if a[0] == '\'' {
          LiteralText(a);
          LiteralText(b);
        }
      }
    }
  }

  /** What is read is lower case, except for literals. */
  lemma {:induction false} TokensAreLower(s: string)
    ensures Lex(s).Ok? ==> forall i :: 0 <= i < |Lex(s).value| ==>
              StartsWith(Lex(s).value[i], '\'') || ToLower(Lex(s).value[i]) == Lex(s).value[i]
    decreases |s|
  {
    if s != [] && (First(s).Skip? || First(s).Token?) {
      var n := First(s).width;
      TokensAreLower(s[n..]);
      if First(s).Token? {
        FirstIsLower(s);
      }
    }
  }

  lemma FirstIsLower(s: string)
    requires s != [] && First(s).Token?
    ensures StartsWith(First(s).text, '\'') || ToLower(First(s).text) == First(s).text
  {
    if IsQuote(s[0]) {
      ToLowerIdempotent(s[1..First(s).width - 1]);
    } else if IsSpecial(s[0]) {
      assert forall i :: 0 <= i < SpecialWidth(s) ==> IsSpecial(s[i]) && LowerChar(s[i]) == s[i];
    } else {
      ToLowerIdempotent(s[..First(s).width]);
    }
  }

  // ----- what is passed over -----

  lemma BlankSkipped(c: char, rest: string)
    requires IsSpace(c)
    ensures Lex([c] + rest) == Lex(rest)
  {
    assert ([c] + rest)[1..] == rest;
  }

  lemma {:induction false} LineEnds(line: string, rest: string)
    requires '\n' !in line
    ensures LineWidth(line + ("\n" + rest)) == |line|
  {
    if line == "" {
      assert "" + ("\n" + rest) == "\n" + rest;
    } else {
      assert (line + ("\n" + rest))[1..] == line[1..] + ("\n" + rest);
      LineEnds(line[1..], rest);
    }
  }

  /** A comment runs to the end of its line. */
  lemma CommentSkipped(line: string, rest: string)
    requires '\n' !in line
    ensures Lex("--" + line + ("\n" + rest)) == Lex(rest)
  {
    var whole := "--" + line + ("\n" + rest);
    LineEnds("--" + line, rest);
    assert whole[0] == '-' && whole[1..][0] == '-';
    assert whole[|line| + 2..] == "\n" + rest;
    BlankSkipped('\n', rest);
  }

  /** An introducer, in any case, in front of a literal in single quotes. */
  lemma IntroducerSkipped(word: string, rest: string)
    requires ToLower(word) in {"_utf8mb4", "_utf8mb3", "_latin1", "_ascii"} && StartsWith(rest, '\'')
    ensures Lex(word + rest) == Lex(rest)
  {
    var whole := word + rest;
    IntroducerIsWord(word);
    WordBeforeQuote(word, rest);
    assert whole[..|word|] == word && whole[|word|..] == rest;
    assert whole[0] == word[0];
  }

  lemma {:induction false} WordBeforeQuote(word: string, rest: string)
    requires StartsWith(rest, '\'') && forall i :: 0 <= i < |word| ==> IsWordChar(word[i])
    ensures WordWidth(word + rest) == |word|
  {
    if word == "" {
      assert word + rest == rest;
    } else {
      assert (word + rest)[1..] == word[1..] + rest;
      WordBeforeQuote(word[1..], rest);
    }
  }

  lemma IntroducerIsWord(word: string)
    requires ToLower(word) in {"_utf8mb4", "_utf8mb3", "_latin1", "_ascii"}
    ensures word != "" && word[0] != '-' && forall i :: 0 <= i < |word| ==> IsWordChar(word[i])
  {
    forall i | 0 <= i < |word|
      ensures IsWordChar(word[i]) && word[i] != '-'
    {
      assert LowerChar(ToLower(word)[i]) == ToLower(word)[i];
      SameKind(word[i], ToLower(word)[i]);
    }
  }

  // ----- expressions and CHECK bodies in any case -----

  /** A text in which the words and names of a printing are written in any case has the expression's canonical string. */
  lemma AnyCaseCanonical(mysql: bool, spelled: string, sql: string, e: Src)
    requires WellFormed(e) && Lex(sql) == Ok(Print(e)) && CaseVariant(spelled, sql)
    ensures Canonical(mysql, spelled) == Ok(Show(Conditioned(mysql, Normalize(mysql, e))))
  {
    CaseVariantsLexAlike(spelled, sql);
    CanonicalOfPrint(mysql, e);
  }

  /** The first CHECK of a definition written in any case is found, and read as the expression printed there. */
  lemma AnyCaseChecks(mysql: bool, spelled: string, sql: string, before: seq<string>, e: Src, after: seq<string>)
    requires WellFormed(e) && "check" !in before
    requires Lex(sql) == Ok(Clause(before, Print(e), after)) && CaseVariant(spelled, sql)
    ensures BodyChecks(spelled) ==
      match Checks(after) case Ok(more) => Ok([Join(Print(e), " ")] + more) case Err(_) => Err(NotClosed)
    ensures Canonical(mysql, Join(Print(e), " ")) == Ok(Show(Conditioned(mysql, Normalize(mysql, e))))
  {
    CaseVariantsLexAlike(spelled, sql);
    CheckBodyReadsBack(mysql, sql, before, e, after);
  }
}
