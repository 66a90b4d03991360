/**
 * When the canonical-string code slices out of range, which is a panic in Go: exactly for which
 * strings a truth position or a cast does, and that no text without quoted names ever gets there.
 */
module SliceSafety {
  import opened Outcomes
  import opened Text
  import opened Decimal
  import opened Tokenizer
  import opened ExpressionParser
  import opened SnapshotChecks

  // ----- the two slices -----

  /** A start and an end that do not overlap. */
  lemma NoOverlap(value: string)
    ensures "=(" <= value && HasSuffix(value, ",0)") ==> |value| >= 5
    ensures "!=(" <= value && HasSuffix(value, ",0)") ==> |value| >= 6
  {
    if HasSuffix(value, ",0)") {
      assert |value| >= 3 && value[|value| - 3] == ',' && value[|value| - 2] == '0';
      assert "=(" <= value ==> value[1] == '(';
      assert "!=(" <= value ==> value[1] == '=' && value[2] == '(';
    }
  }

  /** What a truth position rewrites next: the operand of a comparison with zero, if the string reads like one. */
  function Operand(value: string): (r: Option<string>)
    ensures r.Some? ==> |r.value| < |value|
  {
    if "=(0," <= value then (if |value| > 4 then Some(value[4..|value| - 1]) else None)
    else if "=(" <= value && HasSuffix(value, ",0)") then NoOverlap(value); Some(value[2..|value| - 3])
    else if "!=(0," <= value then (if |value| > 5 then Some(value[5..|value| - 1]) else None)
    else if "!=(" <= value && HasSuffix(value, ",0)") then NoOverlap(value); Some(value[3..|value| - 3])
    else None
  }

  /** The string that is left when every such operand has been taken out. */
  function Innermost(value: string): string
    decreases |value|
  {
    match Operand(value) case Some(operand) => Innermost(operand) case None => value
  }

  predicate Cut(value: string) { value == "=(0," || value == "!=(0," }

  lemma ConditionStep(value: string)
    ensures match Operand(value)
      case Some(operand) =>
        Condition(true, value) == Condition(true, operand) || Condition(true, value) == Negated(Condition(true, operand))
      case None => Condition(true, value) == if Cut(value) then Err(SliceOutOfRange) else Ok(value)
  {
    NoOverlap(value);
    if "=(0," <= value {
      assert |value| == 4 ==> value == "=(0,";
      assert Condition(true, value) == Negated(ConditionSlice(value, 4, 1));
    } else if "!=(0," <= value {
      assert |value| == 5 ==> value == "!=(0,";
      assert value[0] == '!';
      assert Condition(true, value) == ConditionSlice(value, 5, 1);
    }
  }

  /** A truth position fails exactly when what is left in the end is a comparison with zero cut off before its operand. */
  lemma {:induction false} ConditionFailsExactly(value: string)
    ensures Condition(true, value).Err? <==> Cut(Innermost(value))
    ensures Condition(true, value).Err? ==> Condition(true, value) == Err(SliceOutOfRange)
    decreases |value|
  {
    ConditionStep(value);
    if Operand(value).Some? {
      ConditionFailsExactly(Operand(value).value);
    }
  }

  /** An integer cast fails exactly on a single quote. */
  lemma CastFailsExactly(ty: string, value: string)
    ensures CastValue(ty, value).Err? <==> IsIntegerType(ty) && value == "'"
    ensures CastValue(ty, value).Err? ==> CastValue(ty, value) == Err(SliceOutOfRange)
  {
    if |value| == 1 && StartsWith(value, '\'') {
      assert value == "'";
    }
  }

  // ----- strings that never get there -----

  /** The characters that the start of a comparison with zero is made of. */
  predicate InLead(c: char) { c == '=' || c == '!' || c == '(' || c == '0' || c == ',' }

  /** Opening parentheses before any other character than those. */
  function LeadOpens(s: string): nat {
    if s == [] || !InLead(s[0]) then 0 else (if s[0] == '(' then 1 else 0) + LeadOpens(s[1..])
  }

  function Closes(s: string): nat {
    if s == [] then 0 else (if s[0] == ')' then 1 else 0) + Closes(s[1..])
  }

  /** At least as many parentheses are closed as are opened at the start. */
  predicate Closed(s: string) { LeadOpens(s) <= Closes(s) }

  lemma {:induction false} ClosesConcat(a: string, b: string)
    ensures Closes(a + b) == Closes(a) + Closes(b)
  {
    if a == [] {
      assert a + b == b;
    } else {
      assert (a + b)[1..] == a[1..] + b;
      ClosesConcat(a[1..], b);
    }
  }

  lemma {:induction false} LeadConcat(a: string, b: string)
    ensures LeadOpens(a) <= LeadOpens(a + b) <= LeadOpens(a) + LeadOpens(b)
  {
    if a == [] {
      assert a + b == b;
    } else if InLead(a[0]) {
      assert (a + b)[1..] == a[1..] + b;
      LeadConcat(a[1..], b);
    }
  }

  predicate AllLead(s: string) { s == [] || (InLead(s[0]) && AllLead(s[1..])) }

  /** Behind a start made of those characters the count goes on. */
  lemma {:induction false} LeadThrough(a: string, b: string)
    requires AllLead(a)
    ensures LeadOpens(a + b) == LeadOpens(a) + LeadOpens(b)
  {
    if a == [] {
      assert a + b == b;
    } else {
      assert (a + b)[1..] == a[1..] + b;
      LeadThrough(a[1..], b);
    }
  }

  lemma ClosedConcat(a: string, b: string)
    requires Closed(a) && Closed(b)
    ensures Closed(a + b)
  {
    LeadConcat(a, b);
    ClosesConcat(a, b);
  }

  lemma StartCounts()
    ensures LeadOpens("=(0,") == LeadOpens("=(") == LeadOpens("!=(0,") == LeadOpens("!=(") == 1
    ensures Closes("=(0,") == Closes("=(") == Closes("!=(0,") == Closes("!=(") == 0
    ensures AllLead("=(0,") && AllLead("=(") && AllLead("!=(0,") && AllLead("!=(")
  {
    assert "=(0,"[1..] == "(0," && "(0,"[1..] == "0," && "0,"[1..] == ",";
    assert "=("[1..] == "(";
    assert "!=(0,"[1..] == "=(0," && "!=("[1..] == "=(";
  }

  predicate IsStart(start: string) { start in ["=(0,", "=(", "!=(0,", "!=("] }

  lemma StartShape(start: string)
    requires IsStart(start)
    ensures LeadOpens(start) == 1 && Closes(start) == 0 && AllLead(start)
  {
    StartCounts();
  }

  /** Taking an operand out takes one opening and at most one closing parenthesis away. */
  lemma OperandClosed(start: string, operand: string, end: string)
    requires IsStart(start) && Closes(end) <= 1 && Closed(start + (operand + end))
    ensures Closed(operand)
  {
    StartShape(start);
    LeadThrough(start, operand + end);
    LeadConcat(operand, end);
    ClosesConcat(start, operand + end);
    ClosesConcat(operand, end);
  }

  lemma OneCloses(c: char)
    ensures Closes([c]) <= 1
  {}

  lemma ZeroEnd()
    ensures Closes(",0)") == 1
  {
    assert ",0)"[1..] == "0)" && "0)"[1..] == ")";
  }

  /** What is between a start and an end. */
  lemma Between(start: string, value: string, end: string)
    requires start <= value && HasSuffix(value, end) && |value| >= |start| + |end|
    ensures value == start + (value[|start|..|value| - |end|] + end)
  {
    assert value == start + value[|start|..];
    assert value[|start|..] == value[|start|..|value| - |end|] + value[|value| - |end|..];
  }

  lemma BetweenClosed(start: string, value: string, end: string)
    requires start <= value && HasSuffix(value, end) && |value| >= |start| + |end|
    requires IsStart(start) && Closes(end) <= 1 && Closed(value)
    ensures Closed(value[|start|..|value| - |end|])
  {
    Between(start, value, end);
    OperandClosed(start, value[|start|..|value| - |end|], end);
  }

  lemma OperandOfClosed(value: string)
    requires Closed(value) && Operand(value).Some?
    ensures Closed(Operand(value).value)
  {
    var last := [value[|value| - 1]];
    OneCloses(value[|value| - 1]);
    ZeroEnd();
    NoOverlap(value);
    if "=(0," <= value {
      BetweenClosed("=(0,", value, last);
    } else if "=(" <= value && HasSuffix(value, ",0)") {
      BetweenClosed("=(", value, ",0)");
    } else if "!=(0," <= value {
      BetweenClosed("!=(0,", value, last);
    } else {
      BetweenClosed("!=(", value, ",0)");
    }
  }

  lemma {:induction false} InnermostClosed(value: string)
    requires Closed(value)
    ensures !Cut(Innermost(value))
    decreases |value|
  {
    StartCounts();
    if Operand(value).Some? {
      OperandOfClosed(value);
      InnermostClosed(Operand(value).value);
    }
  }

  lemma ConditionOfClosed(mysql: bool, value: string)
    requires Closed(value)
    ensures Condition(mysql, value).Ok?
  {
    InnermostClosed(value);
    ConditionFailsExactly(value);
  }

  // ----- every value the parser builds -----

  /** Neither of the two slices can fail on it. */
  predicate Harmless(value: string) { Closed(value) && value != "'" }

  /** A token that as a value opens nothing at its start; an opening parenthesis never is a value. */
  predicate HarmlessToken(token: string) { token == "(" || (LeadOpens(token) == 0 && token != "'") }

  predicate HarmlessTokens(tokens: seq<string>) { forall i :: 0 <= i < |tokens| ==> HarmlessToken(tokens[i]) }

  predicate HarmlessItems(items: seq<string>) { forall i :: 0 <= i < |items| ==> Harmless(items[i]) }

  predicate SafelyParsed(r: Parsed) {
    match r case Parsed(value, rest) => Harmless(value) && HarmlessTokens(rest) case Failed(e) => e != SliceOutOfRange
  }

  predicate SafelyListed(r: ParsedList) {
    match r case Items(items, rest) => HarmlessItems(items) && HarmlessTokens(rest) case ListFailed(e) => e != SliceOutOfRange
  }

  predicate SafeResult(r: Result<string, ParseError>) {
    match r case Ok(value) => Harmless(value) case Err(e) => e != SliceOutOfRange
  }

  lemma TailHarmless(tokens: seq<string>, n: nat)
    requires HarmlessTokens(tokens) && n <= |tokens|
    ensures HarmlessTokens(tokens[n..])
  {
    forall i | 0 <= i < |tokens[n..]|
      ensures HarmlessToken(tokens[n..][i])
    {
      assert tokens[n..][i] == tokens[n + i];
    }
  }

  /** A string that starts with a letter opens nothing at its start. */
  lemma LetterHarmless(value: string)
    requires |value| > 1 && !InLead(value[0])
    ensures Harmless(value)
  {}

  lemma CommaClosed()
    ensures Closed(",") && Closed(")") && Closed("")
  {}

  /** Opened and closed parentheses around what is closed. */
  lemma GroupClosed(inner: string)
    requires Closed(inner)
    ensures Closed("(" + (inner + ")"))
  {
    var group := "(" + (inner + ")");
    assert group[1..] == inner + ")" && group[0] == '(';
    LeadConcat(inner, ")");
    ClosesConcat(inner, ")");
    assert LeadOpens(")") == 0 && Closes(")") == 1;
  }

  /** A name in front of them. */
  lemma AppliedHarmless(name: string, inner: string)
    requires LeadOpens(name) == 0 && Closed(inner)
    ensures Harmless(name + "(" + inner + ")")
  {
    GroupClosed(inner);
    ClosedConcat(name, "(" + (inner + ")"));
    assert name + "(" + inner + ")" == name + ("(" + (inner + ")"));
  }

  lemma {:induction false} JoinClosed(items: seq<string>)
    requires HarmlessItems(items)
    ensures Closed(Join(items, ","))
  {
    if |items| > 1 {
      assert HarmlessItems(items[1..]) by {
        forall i | 0 <= i < |items[1..]|
          ensures Harmless(items[1..][i])
        {
          assert items[1..][i] == items[i + 1];
        }
      }
      JoinClosed(items[1..]);
      CommaClosed();
      ClosedConcat(items[0], ",");
      ClosedConcat(items[0] + ",", Join(items[1..], ","));
    }
  }

  lemma PairText(op: string, left: string, right: string)
    ensures op + "(" + left + "," + right + ")" == op + "(" + (left + "," + right) + ")"
  {}

  lemma PairHarmless(op: string, left: string, right: string)
    requires LeadOpens(op) == 0 && Closed(left) && Closed(right)
    ensures Harmless(op + "(" + left + "," + right + ")")
  {
    CommaClosed();
    ClosedConcat(left, ",");
    ClosedConcat(left + ",", right);
    AppliedHarmless(op, left + "," + right);
    PairText(op, left, right);
  }

  lemma OpsOpenNothing(op: string)
    requires Precedence(op) > 0
    ensures LeadOpens(op) == 0 && LeadOpens("!=") == 0 && op != "'"
  {
    assert "!="[1..] == "=" && "="[1..] == "" && ">="[1..] == "=";
  }

  /** What a truth position leaves is still closed. */
  lemma {:induction false} ConditionClosed(mysql: bool, value: string)
    requires Closed(value)
    ensures Condition(mysql, value).Ok? && Closed(Condition(mysql, value).value)
    decreases |value|
  {
    if mysql {
      ConditionOfClosed(true, value);
      ConditionStep(value);
      if Operand(value).Some? {
        OperandOfClosed(value);
        ConditionClosed(true, Operand(value).value);
        var inner := Condition(true, Operand(value).value).value;
        LetterHarmless("not(" + inner + ")");
      }
    }
  }

  lemma NegatedHarmless(mysql: bool, value: string)
    requires Harmless(value)
    ensures Condition(mysql, value).Ok? && Harmless("not(" + Condition(mysql, value).value + ")")
  {
    ConditionClosed(mysql, value);
    LetterHarmless("not(" + Condition(mysql, value).value + ")");
  }

  /** The any-array test never cuts off more than there is. */
  lemma AnyArrayRoom(value: string)
    ensures IsAnyArray(value) ==> |ANY_ARRAY| + 2 <= |value|
  {
    if IsAnyArray(value) {
      assert value[9] == '(' && value[|value| - 1] == ')' && value[|value| - 2] == ')';
    }
  }

  lemma SafeCombine(mysql: bool, op: string, left: string, right: string)
    requires Harmless(left) && Harmless(right) && Precedence(op) > 0
    ensures SafeResult(Combine(mysql, op, left, right))
  {
    OpsOpenNothing(op);
    if op == "=" && IsAnyArray(right) {
      AnyArrayRoom(right);
      LetterHarmless("in(" + left + "," + right[|ANY_ARRAY|..|right| - 2] + ")");
    } else if op == "and" || op == "or" {
      ConditionClosed(mysql, left);
      ConditionClosed(mysql, right);
      PairHarmless(op, Condition(mysql, left).value, Condition(mysql, right).value);
    } else {
      PairHarmless(if op == "<>" then "!=" else op, left, right);
    }
  }

  lemma {:induction false} NumberHarmless(n: int)
    ensures Harmless(FormatInt(n))
  {
    var s := FormatInt(n);
    assert s[0] == '-' || IsDigit(s[0]);
    DigitsOpenNothing(s);
  }

  lemma {:induction false} DigitsOpenNothing(s: string)
    requires forall i :: 0 <= i < |s| ==> s[i] == '-' || IsDigit(s[i])
    ensures LeadOpens(s) == 0
  {
    if s != [] {
      DigitsOpenNothing(s[1..]);
    }
  }

  lemma SafeOneCast(value: string, tokens: seq<string>)
    requires Harmless(value) && HarmlessTokens(tokens)
    ensures SafelyParsed(OneCast(value, tokens))
  {
    if AfterTypeName(tokens).Ok? {
      CastFailsExactly(tokens[0], value);
      if CastValue(tokens[0], value) != Ok(value) {
        NumberHarmless(ParseInt64(value[1..|value| - 1]).value);
      }
      TypeNameTail(tokens);
      BracketsTail(AfterTypeName(tokens).value);
    }
  }

  lemma TypeNameTail(tokens: seq<string>)
    requires HarmlessTokens(tokens)
    ensures AfterTypeName(tokens).Ok? ==> HarmlessTokens(AfterTypeName(tokens).value)
    ensures AfterTypeName(tokens).Err? ==> AfterTypeName(tokens).error != SliceOutOfRange
  {
    if AfterTypeName(tokens).Ok? {
      TailHarmless(tokens, |tokens| - |AfterTypeName(tokens).value|);
    }
  }

  lemma BracketsTail(tokens: seq<string>)
    requires HarmlessTokens(tokens)
    ensures AfterBrackets(tokens).Ok? ==> HarmlessTokens(AfterBrackets(tokens).value)
    ensures AfterBrackets(tokens).Err? ==> AfterBrackets(tokens).error != SliceOutOfRange
  {
    if AfterBrackets(tokens).Ok? {
      TailHarmless(tokens, |tokens| - |AfterBrackets(tokens).value|);
    }
  }

  lemma {:induction false} SafeCasts(value: string, tokens: seq<string>)
    requires Harmless(value) && HarmlessTokens(tokens)
    ensures SafelyParsed(Casts(value, tokens))
    decreases |tokens|
  {
    if At(tokens, "::") {
      TailHarmless(tokens, 1);
      SafeOneCast(value, tokens[1..]);
      var r := OneCast(value, tokens[1..]);
      if r.Parsed? {
        SafeCasts(r.value, r.rest);
      }
    }
  }

  // ----- the parser, routine by routine -----

  lemma {:induction false} SafeParse(mysql: bool, minimum: nat, tokens: seq<string>)
    requires HarmlessTokens(tokens)
    ensures SafelyParsed(Parse(mysql, minimum, tokens))
    decreases |tokens|, 2
  {
    SafeAtom(mysql, tokens);
    var r := Atom(mysql, tokens);
    if r.Parsed? {
      SafeClimb(mysql, minimum, r.value, r.rest);
    }
  }

  lemma {:induction false} SafeClimb(mysql: bool, minimum: nat, left: string, tokens: seq<string>)
    requires Harmless(left) && HarmlessTokens(tokens)
    ensures SafelyParsed(Climb(mysql, minimum, left, tokens))
    decreases |tokens|, 1
  {
    if !(tokens == [] || Precedence(tokens[0]) == 0 || Precedence(tokens[0]) < minimum) {
      TailHarmless(tokens, 1);
      SafeExtend(mysql, tokens[0], left, tokens[1..]);
      var r := Extend(mysql, tokens[0], left, tokens[1..]);
      if r.Parsed? {
        SafeClimb(mysql, minimum, r.value, r.rest);
      }
    }
  }

  lemma SafeIsNull(left: string, tokens: seq<string>)
    requires HarmlessTokens(tokens)
    ensures SafelyParsed(Extend(false, "is", left, tokens)) && Extend(true, "is", left, tokens) == Extend(false, "is", left, tokens)
  {
    var after := if At(tokens, "not") then tokens[1..] else tokens;
    if At(tokens, "not") {
      TailHarmless(tokens, 1);
    }
    if At(after, "null") {
      TailHarmless(after, 1);
      LetterHarmless("isnull(" + left + "," + BoolText(At(tokens, "not")) + ")");
    }
  }

  lemma {:induction false} SafeExtend(mysql: bool, op: string, left: string, tokens: seq<string>)
    requires Harmless(left) && HarmlessTokens(tokens) && Precedence(op) > 0
    ensures SafelyParsed(Extend(mysql, op, left, tokens))
    decreases |tokens|, 3
  {
    if op == "is" {
      SafeIsNull(left, tokens);
    } else if op == "in" {
      if At(tokens, "(") {
        TailHarmless(tokens, 1);
        SafeList(mysql, ")", tokens[1..]);
        var r := List(mysql, ")", tokens[1..]);
        if r.Items? {
          LetterHarmless("in(" + left + "," + Join(r.items, ",") + ")");
        }
      }
    } else {
      SafeParse(mysql, Precedence(op) + 1, tokens);
      var r := Parse(mysql, Precedence(op) + 1, tokens);
      if r.Parsed? {
        SafeCombine(mysql, op, left, r.value);
      }
    }
  }

  lemma {:induction false} SafeAtom(mysql: bool, tokens: seq<string>)
    requires HarmlessTokens(tokens)
    ensures SafelyParsed(Atom(mysql, tokens))
    decreases |tokens|, 1
  {
    if tokens != [] {
      if tokens[0] == "not" {
        TailHarmless(tokens, 1);
        SafeParse(mysql, 3, tokens[1..]);
        var r := Parse(mysql, 3, tokens[1..]);
        if r.Parsed? {
          NegatedHarmless(mysql, r.value);
        }
      } else {
        SafePrimary(mysql, tokens);
        var r := Primary(mysql, tokens);
        if r.Parsed? {
          SafeCasts(r.value, r.rest);
        }
      }
    }
  }

  lemma {:induction false} SafePrimary(mysql: bool, tokens: seq<string>)
    requires HarmlessTokens(tokens) && |tokens| > 0
    ensures SafelyParsed(Primary(mysql, tokens))
    decreases |tokens|, 0
  {
    TailHarmless(tokens, 1);
    if tokens[0] == "(" {
      SafeParse(mysql, 0, tokens[1..]);
      var r := Parse(mysql, 0, tokens[1..]);
      if r.Parsed? && At(r.rest, ")") {
        TailHarmless(r.rest, 1);
      }
    } else if tokens[0] == "array" && At(tokens[1..], "[") {
      TailHarmless(tokens, 2);
      SafeApplication(mysql, "array", "]", tokens[2..]);
    } else if At(tokens[1..], "(") {
      TailHarmless(tokens, 2);
      SafeApplication(mysql, tokens[0], ")", tokens[2..]);
    }
  }

  lemma {:induction false} SafeApplication(mysql: bool, name: string, end: string, tokens: seq<string>)
    requires HarmlessTokens(tokens) && LeadOpens(name) == 0
    ensures SafelyParsed(Application(mysql, name, end, tokens))
    decreases |tokens|, 5
  {
    SafeList(mysql, end, tokens);
    var r := List(mysql, end, tokens);
    if r.Items? {
      JoinClosed(r.items);
      AppliedHarmless(name, Join(r.items, ","));
    }
  }

  lemma {:induction false} SafeList(mysql: bool, end: string, tokens: seq<string>)
    requires HarmlessTokens(tokens)
    ensures SafelyListed(List(mysql, end, tokens))
    decreases |tokens|, 4, 0
  {
    if At(tokens, end) {
      TailHarmless(tokens, 1);
    } else {
      SafeItems(mysql, end, tokens);
    }
  }

  lemma {:induction false} SafeItems(mysql: bool, end: string, tokens: seq<string>)
    requires HarmlessTokens(tokens)
    ensures SafelyListed(ListItems(mysql, end, tokens))
    decreases |tokens|, 3
  {
    SafeParse(mysql, 0, tokens);
    var r := Parse(mysql, 0, tokens);
    if r.Parsed? && r.rest != [] {
      TailHarmless(r.rest, 1);
      if !At(r.rest, end) && At(r.rest, ",") {
        SafeItems(mysql, end, r.rest[1..]);
      }
    }
  }

  // ----- texts -----

  /**
   * On tokens that open nothing at their start, in either mode and whatever they spell, no slice is
   * out of range.
   */
  lemma HarmlessTokensNeverCut(mysql: bool, tokens: seq<string>)
    requires HarmlessTokens(tokens)
    ensures CanonicalTokens(mysql, tokens) != Err(SliceOutOfRange)
  {
    SafeParse(mysql, 0, tokens);
    var r := Parse(mysql, 0, tokens);
    if r.Parsed? {
      ConditionClosed(mysql, r.value);
    }
  }

  lemma {:induction false} NothingOpened(s: string)
    requires '(' !in s
    ensures LeadOpens(s) == 0
  {
    if s != [] {
      NothingOpened(s[1..]);
    }
  }

  lemma WordOpensNothing(t: string)
    requires t != [] && WordWidth(t) == |t|
    ensures LeadOpens(t) == 0 && t != "'"
  {
    WordWidthWhole(t);
    assert '(' !in t;
    NothingOpened(t);
  }

  /** A token that reads back as itself is such a token. */
  lemma StableHarmless(t: string)
    requires Stable(t)
    ensures HarmlessToken(t)
  {
    StableFirst(t);
    if IsSpecial(t[0]) {
      assert t == t[..SpecialWidth(t)];
      if t[0] == '(' {
        assert t == "(";
      } else {
        NothingOpened(t);
      }
    } else if t[0] == '\'' {
      assert QuoteWidth(t[1..], '\'').Some?;
    } else {
      assert First(t) == WordLexeme(t);
      WordOpensNothing(t);
    }
  }

  /** Every text without quoted names, in either mode, with no grammar asked of it. */
  lemma NoQuotedNameNoPanic(mysql: bool, sql: string)
    requires QuotedNameFree(sql)
    ensures Canonical(mysql, sql) != Err(SliceOutOfRange)
  {
    if Lex(sql).Ok? {
      LexedStable(sql);
      forall i | 0 <= i < |Lex(sql).value|
        ensures HarmlessToken(Lex(sql).value[i])
      {
        StableHarmless(Lex(sql).value[i]);
      }
      HarmlessTokensNeverCut(mysql, Lex(sql).value);
    }
  }
}
