/**
 * CHECK bodies cut out of a table definition (internal/migrations/definitions.go): found by
 * balanced parentheses, joined with spaces and handed back to the tokenizer.
 */
module SnapshotChecks {
  import opened Outcomes
  import opened Text
  import opened Tokenizer
  import opened ExpressionParser
  import opened Expressions
  import opened CanonicalStrings
  import opened ParsePrint

  // ----- joining tokens and reading them again -----

  /** A text that is one token, unchanged. */
  predicate Stable(t: string) { t != "" && Lex(t) == Ok([t]) }

  /** No lexeme of the text is an identifier in double quotes or backquotes. */
  predicate QuotedNameFree(s: string) {
    s == [] ||
    match First(s)
    case Skip(n) => QuotedNameFree(s[n..])
    case Token(_, n) => s[0] != '"' && s[0] != '`' && QuotedNameFree(s[n..])
    case _ => true
  }

  lemma StableFirst(t: string)
    requires Stable(t)
    ensures First(t) == Token(t, |t|)
  {
    match First(t) {
      case Skip(n) => LexedLength(t[n..]);
      case Token(text, n) =>
        assert Lex(t).value[0] == text;
        LexedLength(t[n..]);
        assert text == t;
      case _ =>
    }
  }

  function TotalLength(tokens: seq<string>): nat {
    if tokens == [] then 0 else |tokens[0]| + TotalLength(tokens[1..])
  }

  /** Tokens are never longer than the text they come from. */
  lemma {:induction false} LexedLength(s: string)
    ensures Lex(s).Ok? ==> TotalLength(Lex(s).value) <= |s|
  {
    if s != [] {
      match First(s) {
        case Skip(n) => LexedLength(s[n..]);
        case Token(t, n) =>
          LexedLength(s[n..]);
          if Lex(s).Ok? {
            assert Lex(s).value == [t] + Lex(s[n..]).value;
            assert Lex(s).value[1..] == Lex(s[n..]).value;
          }
        case _ =>
      }
    }
  }

  lemma {:induction false} QuoteWidthExtends(s: string, quote: char, tail: string)
    requires QuoteWidth(s, quote) == Some(|s|) && quote != ' '
    ensures QuoteWidth(s + (" " + tail), quote) == Some(|s|)
  {
    var whole := s + (" " + tail);
    if s[0] != quote {
      assert whole[1..] == s[1..] + (" " + tail);
      QuoteWidthExtends(s[1..], quote, tail);
    } else if |s| > 1 && s[1] == quote {
      assert whole[2..] == s[2..] + (" " + tail);
      QuoteWidthExtends(s[2..], quote, tail);
    } else {
      assert whole[1] == ' ';
    }
  }

  lemma {:induction false} WordWidthWhole(w: string)
    requires WordWidth(w) == |w|
    ensures forall i :: 0 <= i < |w| ==> IsWordChar(w[i])
  {
    if w != [] {
      WordWidthWhole(w[1..]);
    }
  }

  /** A token stays the same token in front of a space. */
  lemma StableBeforeSpace(t: string, tail: string)
    requires Stable(t)
    ensures Lex(t + (" " + tail)) == Prepend([t], Lex(tail))
  {
    StableFirst(t);
    var after := " " + tail;
    var s := t + after;
    assert s[..|t|] == t && s[|t|..] == after && s[0] == t[0];
    if IsQuote(t[0]) {
      assert s[1..] == t[1..] + after;
      QuoteWidthExtends(t[1..], t[0], tail);
    } else if IsSpecial(t[0]) {
      assert |t| == 1 ==> s[1] == ' ';
      assert |t| == 2 ==> s[..2] == t[..2];
    } else {
      WordWidthWhole(t);
      WordWidthAt(t, after);
      assert |t| > 1 ==> s[1..][0] == t[1..][0];
      assert |t| == 1 ==> s[1..][0] == ' ';
    }
    assert First(s) == Token(t, |t|);
    assert First(after) == Skip(1) && after[1..] == tail;
  }

  /** Joining stable tokens with spaces and tokenizing gives the tokens back. */
  lemma {:induction false} RelexJoined(tokens: seq<string>)
    requires forall i :: 0 <= i < |tokens| ==> Stable(tokens[i])
    ensures Lex(Join(tokens, " ")) == Ok(tokens)
  {
    if |tokens| == 1 {
      assert tokens == [tokens[0]];
    } else if |tokens| > 1 {
      RelexJoined(tokens[1..]);
      var more := Join(tokens[1..], " ");
      assert tokens[0] + " " + more == tokens[0] + (" " + more);
      StableBeforeSpace(tokens[0], more);
      assert tokens == [tokens[0]] + tokens[1..];
    }
  }

  lemma {:induction false} QuoteWidthPrefix(s: string, quote: char)
    requires QuoteWidth(s, quote).Some?
    ensures QuoteWidth(s[..QuoteWidth(s, quote).value], quote) == QuoteWidth(s, quote)
  {
    var n := QuoteWidth(s, quote).value;
    var p := s[..n];
    if s[0] != quote {
      QuoteWidthPrefix(s[1..], quote);
      assert p[1..] == s[1..][..n - 1];
    } else if |s| > 1 && s[1] == quote {
      QuoteWidthPrefix(s[2..], quote);
      assert p[2..] == s[2..][..n - 2];
    }
  }

  lemma {:induction false} WordPrefix(s: string)
    ensures WordWidth(s) <= |s|
    ensures forall i :: 0 <= i < WordWidth(s) ==> IsWordChar(s[i])
  {
    if |s| > 0 && IsWordChar(s[0]) {
      WordPrefix(s[1..]);
      assert forall i :: 0 < i < |s| ==> s[i] == s[1..][i - 1];
    }
  }

  /** Lower-casing keeps word characters word characters. */
  lemma LowerWord(c: char)
    requires IsWordChar(c)
    ensures IsWordChar(LowerChar(c))
  {}

  lemma WordTokenStable(s: string)
    requires |s| > 0 && !IsSpace(s[0]) && !IsQuote(s[0]) && !IsSpecial(s[0])
    requires !(s[0] == '-' && StartsWith(s[1..], '-'))
    requires First(s).Token?
    ensures Stable(First(s).text)
  {
    WordPrefix(s);
    var n := WordWidth(s);
    var w := ToLower(s[..n]);
    assert w == First(s).text;
    forall i | 0 <= i < |w|
      ensures IsWordChar(w[i])
    {
      LowerWord(s[i]);
    }
    ToLowerIdempotent(s[..n]);
    assert |w| > 1 ==> w[0] == LowerChar(s[0]) && w[1] == LowerChar(s[1..][0]);
    assert w + "" == w;
    LexWordAt(w, "");
    assert [w] + [] == [w];
  }

  /** Every token other than a quoted name is stable. */
  lemma TokenStable(s: string)
    requires |s| > 0 && First(s).Token? && s[0] != '"' && s[0] != '`'
    ensures Stable(First(s).text)
  {
    var t, n := First(s).text, First(s).width;
    assert [t] + [] == [t];
    if s[0] == '\'' {
      QuoteWidthPrefix(s[1..], '\'');
      assert t == s[..n] && t[1..] == s[1..][..n - 1] && t[..n] == t;
      assert First(t) == Token(t, n) && t[n..] == [];
      assert Lex(t) == Prepend([t], Ok([]));
    } else if IsSpecial(s[0]) {
      assert t == s[..n] && t[..n] == t && t[n..] == [];
      assert First(t) == Token(t, n);
      assert Lex(t) == Prepend([t], Ok([]));
    } else {
      WordTokenStable(s);
    }
  }

  lemma {:induction false} LexedStable(s: string)
    requires QuotedNameFree(s) && Lex(s).Ok?
    ensures forall i :: 0 <= i < |Lex(s).value| ==> Stable(Lex(s).value[i])
  {
    if s != [] {
      match First(s) {
        case Skip(n) => LexedStable(s[n..]);
        case Token(t, n) =>
          LexedStable(s[n..]);
          TokenStable(s);
          var tokens, rest := Lex(s).value, Lex(s[n..]).value;
          assert tokens == [t] + rest;
          forall i | 0 <= i < |tokens|
            ensures Stable(tokens[i])
          {
            if i > 0 { assert tokens[i] == rest[i - 1]; }
          }
        case _ =>
      }
    }
  }

  // ----- when joined tokens read back -----

  predicate AllStable(tokens: seq<string>) { forall i :: 0 <= i < |tokens| ==> Stable(tokens[i]) }

  /** The characters that quote names. */
  function NameQuotes(s: string): nat {
    if s == [] then 0 else (if s[0] == '"' || s[0] == '`' then 1 else 0) + NameQuotes(s[1..])
  }

  function NameQuotesIn(tokens: seq<string>): nat {
    if tokens == [] then 0 else NameQuotes(tokens[0]) + NameQuotesIn(tokens[1..])
  }

  lemma {:induction false} NameQuotesConcat(a: string, b: string)
    ensures NameQuotes(a + b) == NameQuotes(a) + NameQuotes(b)
  {
    if a == [] {
      assert a + b == b;
    } else {
      assert (a + b)[1..] == a[1..] + b;
      NameQuotesConcat(a[1..], b);
    }
  }

  lemma {:induction false} NameQuotesLower(s: string)
    ensures NameQuotes(ToLower(s)) == NameQuotes(s)
  {
    if s != [] {
      assert ToLower(s)[1..] == ToLower(s[1..]);
      NameQuotesLower(s[1..]);
    }
  }

  lemma {:induction false} NameQuotesJoined(tokens: seq<string>)
    ensures NameQuotes(Join(tokens, " ")) == NameQuotesIn(tokens)
  {
    if |tokens| == 1 {
      assert tokens[1..] == [];
    } else if |tokens| > 1 {
      NameQuotesJoined(tokens[1..]);
      NameQuotesConcat(tokens[0], " ");
      NameQuotesConcat(tokens[0] + " ", Join(tokens[1..], " "));
    }
  }

  /** A lexeme keeps its name quotes, but for the two around a quoted name. */
  lemma FirstLosesQuotes(s: string)
    requires |s| > 0 && First(s).Token?
    ensures NameQuotes(First(s).text) + (if s[0] == '"' || s[0] == '`' then 2 else 0) <= NameQuotes(s[..First(s).width])
  {
    var t, n := First(s).text, First(s).width;
    if s[0] == '"' || s[0] == '`' {
      var inner := s[1..n - 1];
      assert t == ToLower(inner);
      NameQuotesLower(inner);
      assert s[..n] == [s[0]] + (inner + [s[n - 1]]);
      LastIsQuote(s[1..], s[0]);
      NameQuotesConcat([s[0]], inner + [s[n - 1]]);
      NameQuotesConcat(inner, [s[n - 1]]);
    } else {
      NameQuotesLower(s[..n]);
    }
  }

  lemma {:induction false} LastIsQuote(s: string, quote: char)
    requires QuoteWidth(s, quote).Some?
    ensures s[QuoteWidth(s, quote).value - 1] == quote
  {
    if s[0] != quote {
      LastIsQuote(s[1..], quote);
    } else if |s| > 1 && s[1] == quote {
      LastIsQuote(s[2..], quote);
    }
  }

  /** Tokenizing keeps all name quotes only when there is no quoted name. */
  lemma {:induction false} LexLosesQuotes(s: string)
    requires Lex(s).Ok?
    ensures NameQuotesIn(Lex(s).value) <= NameQuotes(s)
    ensures NameQuotesIn(Lex(s).value) == NameQuotes(s) ==> QuotedNameFree(s)
  {
    if s != [] {
      var n := First(s).width;
      assert s == s[..n] + s[n..];
      NameQuotesConcat(s[..n], s[n..]);
      LexLosesQuotes(s[n..]);
      if First(s).Token? {
        FirstLosesQuotes(s);
        assert Lex(s).value == [First(s).text] + Lex(s[n..]).value;
        assert Lex(s).value[1..] == Lex(s[n..]).value;
      }
    }
  }

  /**
   * Any tokens, joined with spaces, are tokenized into the same tokens if and only if each of them
   * alone is one token, unchanged. So is every token of a text but a name that needs its quotes.
   */
  lemma JoinedExactly(tokens: seq<string>)
    ensures Lex(Join(tokens, " ")) == Ok(tokens) <==> AllStable(tokens)
  {
    if AllStable(tokens) {
      RelexJoined(tokens);
    }
    if Lex(Join(tokens, " ")) == Ok(tokens) {
      NameQuotesJoined(tokens);
      LexLosesQuotes(Join(tokens, " "));
      LexedStable(Join(tokens, " "));
    }
  }

  /** A text survives being tokenized, joined and tokenized again exactly when its tokens do, as they do without quoted names. */
  lemma JoinedTokensReadBack(s: string)
    requires Lex(s).Ok?
    ensures Lex(Join(Lex(s).value, " ")) == Lex(s) <==> AllStable(Lex(s).value)
    ensures QuotedNameFree(s) ==> AllStable(Lex(s).value)
  {
    JoinedExactly(Lex(s).value);
    if QuotedNameFree(s) {
      LexedStable(s);
    }
  }

  /** With a quoted name the round trip can fail: the name loses its quotes, then falls apart. */
  lemma QuotedNameFallsApart()
    ensures Lex("\"a b\"") == Ok(["a b"])
    ensures Lex(Join(["a b"], " ")) == Ok(["a", "b"])
  {
    var q := "\"a b\"";
    assert QuoteWidth("\"", '"') == Some(1);
    assert "b\""[1..] == "\"" && " b\""[1..] == "b\"" && "a b\""[1..] == " b\"" && q[1..] == "a b\"";
    assert QuoteWidth("a b\"", '"') == Some(4);
    assert q[1..4] == "a b" && q[5..] == [];
    assert ToLower("a b") == "a b";
    assert First(q) == Token("a b", 5);
    assert ["a b"] + [] == ["a b"] && ["b"] + [] == ["b"] && ["a"] + ["b"] == ["a", "b"];
    assert IsWordToken("a") && IsWordToken("b") by {
      assert ToLower("a") == "a" && ToLower("b") == "b";
    }
    LexWordAt("b", "");
    LexWordAt("a", " b");
    assert "b" + "" == "b" && "a" + " b" == "a b";
    assert First(" b") == Skip(1) && " b"[1..] == "b";
    assert Lex("") == Ok([]);
  }

  // ----- balanced bodies -----

  function Shifted(width: Option<nat>, extra: nat): Option<nat> {
    if width.Some? then Some(width.value + extra) else None
  }

  function DepthAfter(token: string, depth: nat): int {
    if token == "(" then depth + 1 else if token == ")" then depth - 1 else depth
  }

  /** How many tokens precede the one that closes `depth` open parentheses. */
  function BodyWidth(tokens: seq<string>, depth: nat): (n: Option<nat>)
    requires depth > 0
    ensures n.Some? ==> n.value < |tokens|
  {
    if tokens == [] then None
    else if DepthAfter(tokens[0], depth) == 0 then Some(0)
    else Shifted(BodyWidth(tokens[1..], DepthAfter(tokens[0], depth)), 1)
  }

  datatype CheckError = UnclosedCheck

  function ConsCheck(check: string, tail: Result<seq<string>, CheckError>): Result<seq<string>, CheckError> {
    match tail case Ok(checks) => Ok([check] + checks) case Err(e) => Err(e)
  }

  /** The joined bodies of the CHECK clauses of a token sequence, in order. */
  function Checks(tokens: seq<string>): Result<seq<string>, CheckError>
    decreases |tokens|
  {
    if |tokens| < 2 then Ok([])
    else if tokens[0] != "check" || tokens[1] != "(" then Checks(tokens[1..])
    else match BodyWidth(tokens[2..], 1)
      case None => Err(UnclosedCheck)
      case Some(n) => ConsCheck(Join(tokens[2..2 + n], " "), Checks(tokens[2 + n + 1..]))
  }

  /** The checks already found, followed by those from position `i` on. */
  ghost function Found(tokens: seq<string>, checks: seq<string>, i: nat): Result<seq<string>, CheckError>
    requires i <= |tokens|
  {
    match Checks(tokens[i..]) case Ok(more) => Ok(checks + more) case Err(e) => Err(e)
  }

  lemma FoundSkip(tokens: seq<string>, checks: seq<string>, i: nat)
    requires i + 1 < |tokens| && (tokens[i] != "check" || tokens[i + 1] != "(")
    ensures Found(tokens, checks, i) == Found(tokens, checks, i + 1)
  {}

  lemma FoundCheck(tokens: seq<string>, checks: seq<string>, i: nat)
    requires i + 1 < |tokens| && tokens[i] == "check" && tokens[i + 1] == "("
    ensures var width := BodyWidth(tokens[i + 2..], 1);
      Found(tokens, checks, i) ==
        if width.None? then Err(UnclosedCheck)
        else Found(tokens, checks + [Join(tokens[i + 2..i + 2 + width.value], " ")], i + 2 + width.value + 1)
  {
    assert tokens[i..][2..] == tokens[i + 2..];
    var width := BodyWidth(tokens[i + 2..], 1);
    if width.Some? {
      var n := width.value;
      assert tokens[i..][2..2 + n] == tokens[i + 2..i + 2 + n];
      assert tokens[i..][2 + n + 1..] == tokens[i + 2 + n + 1..];
      var rest := Checks(tokens[i + 2 + n + 1..]);
      var check := Join(tokens[i + 2..i + 2 + n], " ");
      assert rest.Ok? ==> checks + ([check] + rest.value) == checks + [check] + rest.value;
    }
  }

  method CheckExpressions(tokens: seq<string>) returns (result: Result<seq<string>, CheckError>)
    ensures result == Checks(tokens)
  {
    var checks: seq<string> := [];
    var i := 0;
    ghost var whole := Checks(tokens);
    assert tokens[0..] == tokens && (whole.Ok? ==> [] + whole.value == whole.value);
    while i < |tokens| - 1
      invariant i <= |tokens|
      invariant whole == Found(tokens, checks, i)
    {
      if tokens[i] != "check" || tokens[i + 1] != "(" {
        FoundSkip(tokens, checks, i);
        i := i + 1;
        continue;
      }
      FoundCheck(tokens, checks, i);
      var start := i + 2;
      var closed;
      i, closed := SkipBody(tokens, start);
      if !closed {
        return Err(UnclosedCheck);
      }
      checks := checks + [Join(tokens[start..i], " ")];
      i := i + 1;
    }
    assert checks + [] == checks;
    return Ok(checks);
  }

  datatype BodyError = NotTokenized(lexical: LexError) | NotClosed

  /** The joined CHECK bodies of a definition's text. */
  function BodyChecks(body: string): Result<seq<string>, BodyError> {
    match Lex(body)
    case Err(e) => Err(NotTokenized(e))
    case Ok(tokens) => match Checks(tokens) case Ok(checks) => Ok(checks) case Err(_) => Err(NotClosed)
  }

  method ReadChecks(body: string) returns (result: Result<seq<string>, BodyError>)
    ensures result == BodyChecks(body)
  {
    var tokens := Tokenize(body);
    if tokens.Err? {
      return Err(NotTokenized(tokens.error));
    }
    var checks := CheckExpressions(tokens.value);
    match checks {
      case Ok(found) => return Ok(found);
      case Err(_) => return Err(NotClosed);
    }
  }

  /** The inner loop: forward to the parenthesis that closes the body. */
  method SkipBody(tokens: seq<string>, start: nat) returns (i: nat, closed: bool)
    requires start <= |tokens|
    ensures closed == BodyWidth(tokens[start..], 1).Some?
    ensures closed ==> i == start + BodyWidth(tokens[start..], 1).value
    ensures start <= i <= |tokens|
  {
    var depth: nat := 1;
    i := start;
    while i < |tokens|
      invariant start <= i <= |tokens| && depth > 0
      invariant BodyWidth(tokens[start..], 1) == Shifted(BodyWidth(tokens[i..], depth), i - start)
    {
      assert tokens[i..][1..] == tokens[i + 1..];
      var next := DepthAfter(tokens[i], depth);
      if next == 0 {
        return i, true;
      }
      depth := next;
      i := i + 1;
    }
    assert tokens[i..] == [];
    return i, false;
  }

  // ----- printed expressions as CHECK bodies -----

  /** Wherever it stands, the sequence closes every parenthesis it opens and no other. */
  ghost predicate Balanced(tokens: seq<string>) {
    forall rest: seq<string>, depth: nat :: depth > 0 ==> BalancedAt(tokens, rest, depth)
  }

  predicate BalancedAt(tokens: seq<string>, rest: seq<string>, depth: nat)
    requires depth > 0
  {
    BodyWidth(tokens + rest, depth) == Shifted(BodyWidth(rest, depth), |tokens|)
  }

  lemma BalancedConcat(a: seq<string>, b: seq<string>)
    requires Balanced(a) && Balanced(b)
    ensures Balanced(a + b)
  {
    forall rest: seq<string>, depth: nat | depth > 0
      ensures BalancedAt(a + b, rest, depth)
    {
      assert a + b + rest == a + (b + rest);
      assert BalancedAt(b, rest, depth) && BalancedAt(a, b + rest, depth);
    }
  }

  lemma {:induction false} BalancedPlain(tokens: seq<string>)
    requires "(" !in tokens && ")" !in tokens
    ensures Balanced(tokens)
  {
    if tokens == [] {
      forall rest: seq<string>, depth: nat | depth > 0
        ensures BalancedAt(tokens, rest, depth)
      {
        assert tokens + rest == rest;
      }
    } else {
      BalancedPlain(tokens[1..]);
      BalancedToken(tokens[0]);
      BalancedConcat([tokens[0]], tokens[1..]);
      assert [tokens[0]] + tokens[1..] == tokens;
    }
  }

  lemma BalancedToken(token: string)
    requires token != "(" && token != ")"
    ensures Balanced([token])
  {}

  lemma BalancedGroup(inner: seq<string>)
    requires Balanced(inner)
    ensures Balanced(["("] + inner + [")"])
  {
    var whole := ["("] + inner + [")"];
    forall rest: seq<string>, depth: nat | depth > 0
      ensures BalancedAt(whole, rest, depth)
    {
      var close := [")"] + rest;
      assert whole + rest == ["("] + (inner + close);
      assert (["("] + (inner + close))[1..] == inner + close;
      assert BalancedAt(inner, close, depth + 1);
      assert close[1..] == rest;
    }
  }

  lemma BalancedCall(name: string, inner: seq<string>)
    requires name != "(" && name != ")" && Balanced(inner)
    ensures Balanced([name, "("] + inner + [")"])
  {
    BalancedGroup(inner);
    BalancedToken(name);
    BalancedConcat([name], ["("] + inner + [")"]);
    assert [name] + (["("] + inner + [")"]) == [name, "("] + inner + [")"];
  }

  lemma {:induction false} BalancedPrint(e: Src)
    requires WellFormed(e) || WellFormedOperand(e)
    ensures Balanced(Print(e))
    decreases e
  {
    match e {
      case Column(name) => BalancedName(name);
      case Number(text) => BalancedName(text);
      case Literal(content) => BalancedLiteral(content);
      case Group(inner) =>
        BalancedPrint(inner);
        BalancedGroup(Print(inner));
      case Array(items) =>
        BalancedList(items);
        BalancedArray(PrintList(items));
      case Call(name, args) =>
        BalancedName(name);
        BalancedList(args);
        BalancedCall(name, PrintList(args));
      case Cast(operand, ty, brackets) =>
        BalancedPrint(operand);
        BalancedCast(Print(operand), ty, brackets);
      case Not(operand) =>
        BalancedPrint(operand);
        BalancedToken("not");
        BalancedConcat(["not"], Print(operand));
      case Binary(op, left, right) =>
        BalancedPrint(left);
        BalancedPrint(right);
        BalancedBinary(Print(left), op, Print(right));
      case IsNull(operand, negated) =>
        BalancedPrint(operand);
        BalancedSuffix(Print(operand), ["is"]);
        BalancedSuffix(Print(operand) + ["is"], if negated then ["not", "null"] else ["null"]);
      case In(operand, items) =>
        BalancedPrint(operand);
        BalancedList(items);
        BalancedIn(Print(operand), PrintList(items));
      case AnyOf(operand) =>
        BalancedPrint(operand);
        BalancedCall("any", Print(operand));
    }
  }

  lemma BalancedName(name: string)
    requires IsName(name) || IsNumeral(name)
    ensures Balanced([name]) && name != "(" && name != ")"
  {}

  lemma BalancedLiteral(content: string)
    ensures Balanced([Quote(content)])
  {}

  lemma BalancedIn(operand: seq<string>, inner: seq<string>)
    requires Balanced(operand) && Balanced(inner)
    ensures Balanced(operand + ["in", "("] + inner + [")"])
  {
    BalancedCall("in", inner);
    BalancedConcat(operand, ["in", "("] + inner + [")"]);
    assert operand + (["in", "("] + inner + [")"]) == operand + ["in", "("] + inner + [")"];
  }

  lemma BalancedArray(inner: seq<string>)
    requires Balanced(inner)
    ensures Balanced(["array", "["] + inner + ["]"])
  {
    BalancedPlain(["array", "["]);
    BalancedConcat(["array", "["], inner);
    BalancedToken("]");
    BalancedConcat(["array", "["] + inner, ["]"]);
  }

  lemma BalancedCast(operand: seq<string>, ty: CastType, brackets: bool)
    requires Balanced(operand)
    ensures Balanced(operand + ["::"] + TypeTokens(ty) + Brackets(brackets))
  {
    BalancedSuffix(operand, ["::"]);
    BalancedSuffix(operand + ["::"], TypeTokens(ty));
    BalancedSuffix(operand + ["::"] + TypeTokens(ty), Brackets(brackets));
  }

  lemma BalancedBinary(left: seq<string>, op: Op, right: seq<string>)
    requires Balanced(left) && Balanced(right)
    ensures Balanced(left + [OpToken(op)] + right)
  {
    BalancedToken(OpToken(op));
    BalancedConcat(left, [OpToken(op)]);
    BalancedConcat(left + [OpToken(op)], right);
  }

  lemma BalancedSuffix(front: seq<string>, suffix: seq<string>)
    requires Balanced(front) && "(" !in suffix && ")" !in suffix
    ensures Balanced(front + suffix)
  {
    BalancedPlain(suffix);
    BalancedConcat(front, suffix);
  }

  lemma {:induction false} BalancedList(items: seq<Src>)
    requires AllWellFormed(items)
    ensures Balanced(PrintList(items))
    decreases items
  {
    if items == [] {
      BalancedPlain([]);
    } else if |items| == 1 {
      BalancedPrint(items[0]);
    } else {
      BalancedPrint(items[0]);
      BalancedList(items[1..]);
      BalancedToken(",");
      BalancedConcat(Print(items[0]), [","]);
      BalancedConcat(Print(items[0]) + [","], PrintList(items[1..]));
    }
  }

  // ----- from the table definition to the canonical string -----

  lemma {:induction false} ChecksSkip(before: seq<string>, tokens: seq<string>)
    requires "check" !in before
    ensures Checks(before + (["check"] + tokens)) == Checks(["check"] + tokens)
  {
    var rest := ["check"] + tokens;
    if before == [] {
      assert before + rest == rest;
    } else {
      assert (before + rest)[1..] == before[1..] + rest;
      ChecksSkip(before[1..], tokens);
    }
  }

  /** The tokens of a definition around one CHECK clause. */
  function Clause(before: seq<string>, inner: seq<string>, after: seq<string>): seq<string> {
    before + (["check"] + (["("] + (inner + ([")"] + after))))
  }

  lemma ClauseChecks(before: seq<string>, inner: seq<string>, after: seq<string>)
    requires "check" !in before && Balanced(inner)
    ensures Checks(Clause(before, inner, after)) == ConsCheck(Join(inner, " "), Checks(after))
  {
    ChecksSkip(before, ["("] + (inner + ([")"] + after)));
    FirstCheck(inner, after);
  }

  lemma WordStable(w: string)
    requires IsWordToken(w)
    ensures Stable(w)
  {
    assert w + "" == w && [w] + [] == [w];
    LexWordAt(w, "");
  }

  lemma SymbolStable(c: char)
    requires IsSpecial(c)
    ensures Stable([c])
  {
    assert [c] + "" == [c] && [[c]] + [] == [[c]];
    LexSymbolAt(c, "");
  }

  lemma PairStable(symbol: string)
    requires IsPair(symbol)
    ensures Stable(symbol)
  {
    assert symbol + "" == symbol && [symbol] + [] == [symbol];
    LexPairAt(symbol, "");
  }

  lemma QuoteStable(content: string)
    ensures Stable(Quote(content))
  {
    assert Quote(content) + "" == Quote(content) && [Quote(content)] + [] == [Quote(content)];
    LexQuoteAt(content, "");
  }

  lemma NameStable(name: string)
    requires IsName(name) || IsNumeral(name)
    ensures Stable(name)
  {
    if IsNumeral(name) {
      NumeralIsWord(name);
    }
    WordStable(name);
  }

  lemma LettersStable(w: string)
    requires w != [] && forall i :: 0 <= i < |w| ==> 'a' <= w[i] <= 'z'
    ensures Stable(w)
  {
    assert ToLower(w) == w && w[0] != '-';
    WordStable(w);
  }

  lemma OpStable(op: Op)
    ensures Stable(OpToken(op))
  {
    var w := OpToken(op);
    if IsLogical(op) {
      LettersStable(w);
    } else if |w| == 1 {
      assert w == [w[0]];
      SymbolStable(w[0]);
    } else {
      PairStable(w);
    }
  }

  lemma StableConcat(a: seq<string>, b: seq<string>)
    requires AllStable(a) && AllStable(b)
    ensures AllStable(a + b)
  {}

  lemma BracketsStable()
    ensures Stable("(") && Stable(")") && Stable("[") && Stable("]") && Stable(",") && Stable("::")
  {
    SymbolStable('(');
    SymbolStable(')');
    SymbolStable('[');
    SymbolStable(']');
    SymbolStable(',');
    PairStable("::");
  }

  lemma KeywordStable(w: string)
    requires w in RESERVED || w == "null"
    ensures Stable(w)
  {
    assert forall i :: 0 <= i < |w| ==> 'a' <= w[i] <= 'z';
    LettersStable(w);
  }

  lemma OneStable(a: string)
    requires Stable(a)
    ensures AllStable([a])
  {}

  lemma TwoStable(a: string, b: string)
    requires Stable(a) && Stable(b)
    ensures AllStable([a, b])
  {}

  lemma Around(front: seq<string>, inner: seq<string>, back: seq<string>)
    requires AllStable(front) && AllStable(inner) && AllStable(back)
    ensures AllStable(front + inner + back)
  {}

  lemma TypeStable(ty: CastType)
    ensures AllStable(TypeTokens(ty))
  {
    forall i | 0 <= i < |TypeTokens(ty)|
      ensures Stable(TypeTokens(ty)[i])
    {
      LettersStable(TypeTokens(ty)[i]);
    }
  }

  lemma CastTokensStable(operand: seq<string>, ty: CastType, brackets: bool)
    requires AllStable(operand)
    ensures AllStable(operand + ["::"] + TypeTokens(ty) + Brackets(brackets))
  {
    BracketsStable();
    TypeStable(ty);
    OneStable("::");
    Around(operand, ["::"], TypeTokens(ty));
    TwoStable("[", "]");
    StableConcat(operand + ["::"] + TypeTokens(ty), Brackets(brackets));
  }

  lemma IsNullStable(operand: seq<string>, negated: bool)
    requires AllStable(operand)
    ensures AllStable(operand + ["is"] + (if negated then ["not", "null"] else ["null"]))
  {
    KeywordStable("is");
    KeywordStable("not");
    KeywordStable("null");
    OneStable("is");
    OneStable("null");
    TwoStable("not", "null");
    Around(operand, ["is"], if negated then ["not", "null"] else ["null"]);
  }

  lemma InStable(operand: seq<string>, inner: seq<string>)
    requires AllStable(operand) && AllStable(inner)
    ensures AllStable(operand + ["in", "("] + inner + [")"])
  {
    KeywordStable("in");
    BracketsStable();
    TwoStable("in", "(");
    OneStable(")");
    Around(operand, ["in", "("], inner);
    StableConcat(operand + ["in", "("] + inner, [")"]);
  }

  lemma CallStable(name: string, open: string, inner: seq<string>, close: string)
    requires Stable(name) && Stable(open) && Stable(close) && AllStable(inner)
    ensures AllStable([name, open] + inner + [close])
  {
    TwoStable(name, open);
    OneStable(close);
    Around([name, open], inner, [close]);
  }

  lemma BinaryStable(left: seq<string>, op: Op, right: seq<string>)
    requires AllStable(left) && AllStable(right)
    ensures AllStable(left + [OpToken(op)] + right)
  {
    OpStable(op);
    OneStable(OpToken(op));
    Around(left, [OpToken(op)], right);
  }

  lemma GroupStable(inner: seq<string>)
    requires AllStable(inner)
    ensures AllStable(["("] + inner + [")"])
  {
    BracketsStable();
    Around(["("], inner, [")"]);
  }

  lemma NotStable(operand: seq<string>)
    requires AllStable(operand)
    ensures AllStable(["not"] + operand)
  {
    KeywordStable("not");
    OneStable("not");
    StableConcat(["not"], operand);
  }

  /** Every token of a printing reads back. */
  lemma {:induction false} PrintStable(e: Src)
    requires WellFormed(e) || WellFormedOperand(e)
    ensures AllStable(Print(e))
    decreases e
  {
    match e {
      case Column(name) => NameStable(name);
      case Number(text) => NameStable(text);
      case Literal(content) => QuoteStable(content);
      case Group(inner) =>
        PrintStable(inner);
        GroupStable(Print(inner));
      case Array(items) =>
        ListStable(items);
        KeywordStable("array");
        BracketsStable();
        CallStable("array", "[", PrintList(items), "]");
      case Call(name, args) =>
        ListStable(args);
        NameStable(name);
        BracketsStable();
        CallStable(name, "(", PrintList(args), ")");
      case Cast(operand, ty, brackets) =>
        PrintStable(operand);
        CastTokensStable(Print(operand), ty, brackets);
      case Not(operand) =>
        PrintStable(operand);
        NotStable(Print(operand));
      case Binary(op, left, right) =>
        PrintStable(left);
        PrintStable(right);
        BinaryStable(Print(left), op, Print(right));
      case IsNull(operand, negated) =>
        PrintStable(operand);
        IsNullStable(Print(operand), negated);
      case In(operand, items) =>
        PrintStable(operand);
        ListStable(items);
        InStable(Print(operand), PrintList(items));
      case AnyOf(operand) =>
        PrintStable(operand);
        KeywordStable("any");
        BracketsStable();
        CallStable("any", "(", Print(operand), ")");
    }
  }

  lemma {:induction false} ListStable(items: seq<Src>)
    requires AllWellFormed(items)
    ensures AllStable(PrintList(items))
    decreases items
  {
    if items != [] {
      PrintStable(items[0]);
      ListStable(items[1..]);
      BracketsStable();
      Around(Print(items[0]), [","], PrintList(items[1..]));
    }
  }

  /**
   * The first CHECK of a definition, whatever surrounds it, quoted names included, is cut out
   * exactly; its joined text has the body's own tokens, and so the canonical string of the
   * expression printed there.
   */
  lemma CheckBodyReadsBack(mysql: bool, sql: string, before: seq<string>, e: Src, after: seq<string>)
    requires WellFormed(e) && "check" !in before
    requires Lex(sql) == Ok(Clause(before, Print(e), after))
    ensures BodyChecks(sql) ==
      match Checks(after) case Ok(more) => Ok([Join(Print(e), " ")] + more) case Err(_) => Err(NotClosed)
    ensures Canonical(mysql, Join(Print(e), " ")) == Ok(Show(Conditioned(mysql, Normalize(mysql, e))))
  {
    BalancedPrint(e);
    ClauseChecks(before, Print(e), after);
    PrintStable(e);
    RelexJoined(Print(e));
    CanonicalOfPrint(mysql, e);
  }

  lemma FirstCheck(inner: seq<string>, after: seq<string>)
    requires Balanced(inner)
    ensures Checks(["check"] + (["("] + (inner + ([")"] + after)))) == ConsCheck(Join(inner, " "), Checks(after))
  {
    var close := [")"] + after;
    var body := inner + close;
    var clause := ["check"] + (["("] + body);
    assert clause[1] == "(" && clause[2..] == body;
    assert BalancedAt(inner, close, 1);
    assert BodyWidth(close, 1) == Some(0);
    assert clause[2..2 + |inner|] == inner && clause[2 + |inner| + 1..] == after;
  }
}
