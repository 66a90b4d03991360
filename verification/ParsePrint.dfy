/**
 * Parsing a printing: for every well-formed tree, the parser turns the tree's tokens into
 * the string of its normalized term, whatever parentheses the printing carries.
 */
module ParsePrint {
  import opened Outcomes
  import opened Text
  import opened Decimal
  import opened Tokenizer
  import opened ExpressionParser
  import opened Expressions
  import opened CanonicalStrings

  // ----- normalized trees are canonical -----

  lemma {:induction false} NormalizeCanonical(mysql: bool, e: Src)
    requires WellFormed(e)
    ensures CanonicalTerm(Normalize(mysql, e))
    decreases e, 0
  {
    match e {
      case Column(_) =>
      case Number(_) =>
      case Literal(_) =>
      case Group(inner) => NormalizeCanonical(mysql, inner);
      case Array(items) => NormalizeAllCanonical(mysql, items);
      case Call(_, args) => NormalizeAllCanonical(mysql, args);
      case Cast(operand, ty, _) =>
        NormalizeCanonical(mysql, operand);
        CastCanonical(ty, Normalize(mysql, operand));
      case Not(operand) =>
        NormalizeCanonical(mysql, operand);
        ConditionShow(mysql, Normalize(mysql, operand));
      case Binary(op, left, right) =>
        NormalizeCanonical(mysql, left);
        NormalizeOperandCanonical(mysql, right);
        BinaryCanonical(mysql, op, Normalize(mysql, left), Normalize(mysql, right));
      case IsNull(operand, negated) =>
        NormalizeCanonical(mysql, operand);
        var flag := Word(BoolText(negated));
        BoolIsName(negated);
        PairCanonical(Normalize(mysql, operand), flag);
      case In(operand, items) =>
        NormalizeCanonical(mysql, operand);
        NormalizeAllCanonical(mysql, items);
        assert ([Normalize(mysql, operand)] + NormalizeAll(mysql, items))[1..] == NormalizeAll(mysql, items);
    }
  }

  lemma NormalizeOperandCanonical(mysql: bool, e: Src)
    requires WellFormed(e) || WellFormedOperand(e)
    ensures CanonicalTerm(Normalize(mysql, e))
    decreases e, 1
  {
    if e.AnyOf? {
      NormalizeCanonical(mysql, e.operand);
    } else {
      NormalizeCanonical(mysql, e);
    }
  }

  lemma {:induction false} NormalizeAllCanonical(mysql: bool, items: seq<Src>)
    requires AllWellFormed(items)
    ensures AllCanonical(NormalizeAll(mysql, items))
    decreases items
  {
    if items != [] {
      NormalizeCanonical(mysql, items[0]);
      NormalizeAllCanonical(mysql, items[1..]);
      assert NormalizeAll(mysql, items)[1..] == NormalizeAll(mysql, items[1..]);
    }
  }

  lemma PairCanonical(a: Term, b: Term)
    requires CanonicalTerm(a) && CanonicalTerm(b)
    ensures AllCanonical([a, b])
  {}

  lemma BoolIsName(b: bool)
    ensures IsName(BoolText(b))
  {}

  lemma {:induction false} PointOfDigits(s: string)
    requires AllDigits(s)
    ensures Point(s) == |s|
  {
    if s != [] {
      assert IsDigit(s[0]);
      PointOfDigits(s[1..]);
    }
  }

  lemma IntegerIsNumeral(w: string)
    requires IsInteger(w)
    ensures IsNumeral(w) && Point(Unsigned(w)) == |Unsigned(w)|
  {
    PointOfDigits(Unsigned(w));
    assert Unsigned(w)[..|Unsigned(w)|] == Unsigned(w);
  }

  lemma FormatIntIsInteger(n: int)
    ensures IsInteger(FormatInt(n)) && IsNumeral(FormatInt(n))
  {
    assert IsInteger(FormatInt(n));
    IntegerIsNumeral(FormatInt(n));
  }

  lemma CastCanonical(ty: CastType, t: Term)
    requires CanonicalTerm(t)
    ensures CanonicalTerm(NormalizeCast(ty, t))
  {
    if NormalizeCast(ty, t) != t {
      FormatIntIsInteger(ParseInt64(Doubled(t.content)).value);
    }
  }

  lemma BinaryCanonical(mysql: bool, op: Op, left: Term, right: Term)
    requires CanonicalTerm(left) && CanonicalTerm(right)
    ensures CanonicalTerm(NormalizeBinary(mysql, op, left, right))
  {
    if op.Eq? && IsAnyOfArray(right) {
      var items := right.args[0].args;
      assert CanonicalTerm(right.args[0]) && AllCanonical(items);
      assert ([left] + items)[1..] == items;
      assert AllCanonical([left] + items);
    } else {
      ConditionShow(mysql, left);
      ConditionShow(mysql, right);
      var r := if IsLogical(op) then Conditioned(mysql, right) else right;
      var l := if IsLogical(op) then Conditioned(mysql, left) else left;
      PairCanonical(l, r);
      assert OpHead(op) in SYMBOLS || OpHead(op) in RESERVED;
    }
  }

  // ----- strings built by the parser -----

  lemma ShowIn(left: Term, items: seq<Term>)
    requires items != []
    ensures Show(Node("in", [left] + items)) == "in(" + Show(left) + "," + Join(ShowAll(items), ",") + ")"
  {}

  lemma ShowIsNull(operand: Term, negated: bool)
    ensures Show(Node("isnull", [operand, Word(BoolText(negated))]))
         == "isnull(" + Show(operand) + "," + BoolText(negated) + ")"
  {
    ShowPair("isnull", operand, Word(BoolText(negated)));
    assert "isnull" + "(" == "isnull(";
  }

  lemma CombineShow(mysql: bool, op: Op, left: Term, right: Term)
    requires CanonicalTerm(left) && CanonicalTerm(right)
    requires IsAnyOfArray(right) ==> right.args[0].args != []
    ensures Combine(mysql, OpToken(op), Show(left), Show(right)) == Ok(Show(NormalizeBinary(mysql, op, left, right)))
  {
    if IsLogical(op) {
      ConditionShow(mysql, left);
      ConditionShow(mysql, right);
      ShowPair(OpHead(op), Conditioned(mysql, left), Conditioned(mysql, right));
    } else if op.Eq? {
      CombineEqual(mysql, left, right);
    } else {
      ShowPair(OpHead(op), left, right);
    }
  }

  lemma CombineEqual(mysql: bool, left: Term, right: Term)
    requires CanonicalTerm(left) && CanonicalTerm(right)
    requires IsAnyOfArray(right) ==> right.args[0].args != []
    ensures Combine(mysql, "=", Show(left), Show(right)) == Ok(Show(NormalizeBinary(mysql, Eq, left, right)))
  {
    AnyArrayExact(right);
    if IsAnyOfArray(right) {
      ShowIn(left, right.args[0].args);
    } else {
      ShowPair("=", left, right);
    }
  }

  lemma CastShow(ty: CastType, t: Term)
    requires CanonicalTerm(t)
    ensures CastValue(TypeTokens(ty)[0], Show(t)) == Ok(Show(NormalizeCast(ty, t)))
  {
    assert IsIntegerType(TypeTokens(ty)[0]) <==> IsIntegral(ty);
    match t {
      case Quoted(content) =>
        Middle("'", Doubled(content), "'");
        assert HasSuffix(Quote(content), "'");
      case Word(text) => HeadChars(text);
      case Node(head, _) => HeadChars(head);
    }
  }

  // ----- token shapes -----

  predicate IsEnd(token: string) { token == ")" || token == "]" }

  /** Tokens that begin no expression. */
  predicate Starts(token: string) { !IsEnd(token) && token != "," }

  lemma NameShape(name: string)
    requires IsName(name) || IsNumeral(name)
    ensures Starts(name) && name != "(" && name != "not" && name != "array"
  {}

  lemma {:induction false} PrintStarts(e: Src)
    requires WellFormed(e) || WellFormedOperand(e)
    ensures Starts(Print(e)[0])
    ensures Level(e) == 5 ==> Print(e)[0] != "not"
    decreases e
  {
    match e {
      case Column(name) => NameShape(name);
      case Number(text) => NameShape(text);
      case Literal(content) => assert Quote(content)[0] == '\'';
      case Group(_) =>
      case Array(_) =>
      case Call(name, _) => NameShape(name);
      case Cast(operand, _, _) => PrintStarts(operand);
      case Not(_) =>
      case Binary(_, left, _) => PrintStarts(left);
      case IsNull(operand, _) => PrintStarts(operand);
      case In(operand, _) => PrintStarts(operand);
      case AnyOf(_) =>
    }
  }

  /** The loosest operator that can come next without being taken into `e`. */
  function Grip(e: Src): nat {
    if e.Binary? && e.op.Or? then 1 else if Level(e) <= 3 then 2 else 3
  }

  /** `rest` does not continue the expression `e`. */
  predicate Follows(e: Src, rest: seq<string>) {
    rest == [] || IsEnd(rest[0]) || rest[0] == "," || 0 < Precedence(rest[0]) <= Grip(e)
  }

  lemma FollowShape(e: Src, rest: seq<string>)
    requires Follows(e, rest)
    ensures !At(rest, "(") && !At(rest, "[") && !At(rest, "::")
    ensures rest != [] ==> Precedence(rest[0]) <= Grip(e)
  {}

  /** The lowest level that `Parse(minimum)` reads whole. */
  function Needed(minimum: nat): nat { if minimum >= 4 then 5 else minimum }

  // ----- single steps of the parser -----

  lemma Reassociate(a: seq<string>, b: seq<string>, c: seq<string>, d: seq<string>)
    ensures a + b + c + d == a + (b + (c + d))
  {}

  lemma LeafStep(mysql: bool, token: string, rest: seq<string>)
    requires token != "(" && token != "array" && !At(rest, "(")
    ensures Primary(mysql, [token] + rest) == Parsed(token, rest)
  {}

  lemma CallStep(mysql: bool, name: string, tail: seq<string>)
    requires name != "("
    ensures Primary(mysql, [name, "("] + tail) == Application(mysql, name, ")", tail)
  {}

  lemma ArrayStep(mysql: bool, tail: seq<string>)
    ensures Primary(mysql, ["array", "["] + tail) == Application(mysql, "array", "]", tail)
  {}

  lemma GroupStep(mysql: bool, inner: seq<string>, value: string, rest: seq<string>)
    requires Parse(mysql, 0, inner) == Parsed(value, [")"] + rest)
    ensures Primary(mysql, ["("] + inner) == Parsed(value, rest)
  {}

  function Brackets(present: bool): seq<string> { if present then ["[", "]"] else [] }

  lemma CastStep(value: string, converted: string, ty: CastType, brackets: bool, rest: seq<string>)
    requires CastValue(TypeTokens(ty)[0], value) == Ok(converted) && !At(rest, "[")
    ensures Casts(value, ["::"] + TypeTokens(ty) + Brackets(brackets) + rest) == Casts(converted, rest)
  {
    var after := Brackets(brackets) + rest;
    var named := TypeTokens(ty) + after;
    var tokens := ["::"] + named;
    assert ["::"] + TypeTokens(ty) + Brackets(brackets) + rest == tokens;
    assert tokens[1..] == named && tokens[1] == TypeTokens(ty)[0];
    TypeStep(ty, after);
    BracketStep(brackets, rest);
    assert OneCast(value, named) == Parsed(converted, rest);
  }

  lemma BracketStep(brackets: bool, rest: seq<string>)
    requires !At(rest, "[")
    ensures AfterBrackets(Brackets(brackets) + rest) == Ok(rest)
  {
    var after := Brackets(brackets) + rest;
    if brackets {
      assert after[1..] == ["]"] + rest && after[2..] == rest;
    } else {
      assert after == rest;
    }
  }

  lemma TypeStep(ty: CastType, after: seq<string>)
    ensures AfterTypeName(TypeTokens(ty) + after) == Ok(after)
  {}

  lemma StopStep(mysql: bool, minimum: nat, left: string, rest: seq<string>)
    requires rest != [] ==> Precedence(rest[0]) == 0 || Precedence(rest[0]) < minimum
    ensures Climb(mysql, minimum, left, rest) == Parsed(left, rest)
  {}

  lemma IsStep(mysql: bool, minimum: nat, left: string, negated: bool, rest: seq<string>)
    requires minimum <= 3
    ensures Climb(mysql, minimum, left, ["is"] + (if negated then ["not", "null"] else ["null"]) + rest)
         == Climb(mysql, minimum, "isnull(" + left + "," + BoolText(negated) + ")", rest)
  {
    var suffix := if negated then ["not", "null"] else ["null"];
    var tokens := ["is"] + suffix + rest;
    assert tokens[1..] == suffix + rest;
    IsNullStep(mysql, left, negated, rest);
  }

  lemma IsNullStep(mysql: bool, left: string, negated: bool, rest: seq<string>)
    ensures Extend(mysql, "is", left, (if negated then ["not", "null"] else ["null"]) + rest)
         == Parsed("isnull(" + left + "," + BoolText(negated) + ")", rest)
  {}

  lemma InStep(mysql: bool, minimum: nat, left: string, tail: seq<string>, items: seq<string>, rest: seq<string>)
    requires minimum <= 3 && List(mysql, ")", tail) == Items(items, rest)
    ensures Climb(mysql, minimum, left, ["in", "("] + tail)
         == Climb(mysql, minimum, "in(" + left + "," + Join(items, ",") + ")", rest)
  {}

  lemma LastItem(mysql: bool, end: string, tokens: seq<string>, value: string, rest: seq<string>)
    requires Parse(mysql, 0, tokens) == Parsed(value, [end] + rest)
    ensures ListItems(mysql, end, tokens) == Items([value], rest)
  {}

  lemma NextItem(mysql: bool, end: string, tokens: seq<string>, value: string, more: seq<string>, values: seq<string>, rest: seq<string>)
    requires end != "," && Parse(mysql, 0, tokens) == Parsed(value, [","] + more)
    requires ListItems(mysql, end, more) == Items(values, rest)
    ensures ListItems(mysql, end, tokens) == Items([value] + values, rest)
  {}

  lemma OperatorStep(mysql: bool, minimum: nat, left: string, op: Op, tail: seq<string>, right: string, rest: seq<string>, value: string)
    requires minimum <= Precedence(OpToken(op))
    requires Parse(mysql, Precedence(OpToken(op)) + 1, tail) == Parsed(right, rest)
    requires Combine(mysql, OpToken(op), left, right) == Ok(value)
    ensures Climb(mysql, minimum, left, [OpToken(op)] + tail) == Climb(mysql, minimum, value, rest)
  {}

  lemma NotStep(mysql: bool, tail: seq<string>, value: string, operand: string, rest: seq<string>)
    requires Parse(mysql, 3, tail) == Parsed(value, rest) && Condition(mysql, value) == Ok(operand)
    ensures Atom(mysql, ["not"] + tail) == Parsed("not(" + operand + ")", rest)
  {}

  // ----- the parser on printings -----

  lemma {:induction false} PrimaryAt(mysql: bool, e: Src, rest: seq<string>)
    requires Level(e) == 5 && !e.Cast? && (WellFormed(e) || WellFormedOperand(e))
    requires !At(rest, "(") && !At(rest, "[")
    ensures Primary(mysql, Print(e) + rest) == Parsed(Show(Normalize(mysql, e)), rest)
    decreases e, 0
  {
    match e {
      case Column(name) => NameAt(mysql, name, rest);
      case Number(text) => NameAt(mysql, text, rest);
      case Literal(content) => LiteralAt(mysql, content, rest);
      case Group(inner) => GroupAt(mysql, inner, rest);
      case Array(items) => ArrayAt(mysql, items, rest);
      case Call(name, args) => CallAt(mysql, name, args, rest);
      case AnyOf(operand) => AnyAt(mysql, operand, rest);
    }
  }

  lemma NameAt(mysql: bool, name: string, rest: seq<string>)
    requires (IsName(name) || IsNumeral(name)) && !At(rest, "(")
    ensures Primary(mysql, [name] + rest) == Parsed(name, rest)
  {}

  lemma LiteralAt(mysql: bool, content: string, rest: seq<string>)
    requires !At(rest, "(")
    ensures Primary(mysql, [Quote(content)] + rest) == Parsed(Quote(content), rest)
  {
    assert Quote(content)[0] == '\'';
    LeafStep(mysql, Quote(content), rest);
  }

  lemma ArrayAt(mysql: bool, items: seq<Src>, rest: seq<string>)
    requires AllWellFormed(items)
    ensures Primary(mysql, Print(Array(items)) + rest) == Parsed(Show(Normalize(mysql, Array(items))), rest)
    decreases items, 2
  {
    var tail := PrintList(items) + (["]"] + rest);
    ListAt(mysql, "]", items, rest);
    ArrayStep(mysql, tail);
    Reassociate(["array", "["], PrintList(items), ["]"], rest);
  }

  lemma CallAt(mysql: bool, name: string, args: seq<Src>, rest: seq<string>)
    requires IsName(name) && AllWellFormed(args)
    ensures Primary(mysql, Print(Call(name, args)) + rest) == Parsed(Show(Normalize(mysql, Call(name, args))), rest)
    decreases args, 2
  {
    var tail := PrintList(args) + ([")"] + rest);
    NameShape(name);
    ListAt(mysql, ")", args, rest);
    CallStep(mysql, name, tail);
    Reassociate([name, "("], PrintList(args), [")"], rest);
  }

  lemma GroupAt(mysql: bool, inner: Src, rest: seq<string>)
    requires WellFormed(inner)
    ensures Primary(mysql, Print(Group(inner)) + rest) == Parsed(Show(Normalize(mysql, inner)), rest)
    decreases inner, 4
  {
    var tail := [")"] + rest;
    ItemAt(mysql, inner, tail);
    GroupStep(mysql, Print(inner) + tail, Show(Normalize(mysql, inner)), rest);
    Reassociate(["("], Print(inner), [")"], rest);
  }

  lemma AnyAt(mysql: bool, operand: Src, rest: seq<string>)
    requires WellFormed(operand)
    ensures Primary(mysql, Print(AnyOf(operand)) + rest) == Parsed(Show(Normalize(mysql, AnyOf(operand))), rest)
    decreases operand, 4
  {
    var t, close := Normalize(mysql, operand), [")"] + rest;
    var tail := Print(operand) + close;
    ItemAt(mysql, operand, close);
    LastItem(mysql, ")", tail, Show(t), rest);
    PrintStarts(operand);
    NotEmptyList(mysql, ")", tail);
    CallStep(mysql, "any", tail);
    Reassociate(["any", "("], Print(operand), [")"], rest);
    assert ShowAll([t]) == [Show(t)];
  }

  lemma NotEmptyList(mysql: bool, end: string, tokens: seq<string>)
    requires tokens != [] && Starts(tokens[0]) && IsEnd(end)
    ensures List(mysql, end, tokens) == ListItems(mysql, end, tokens)
  {}

  lemma {:induction false} AtomAt(mysql: bool, e: Src, rest: seq<string>)
    requires Level(e) == 5 && (WellFormed(e) || WellFormedOperand(e))
    requires !At(rest, "(") && !At(rest, "[")
    ensures Atom(mysql, Print(e) + rest) == Casts(Show(Normalize(mysql, e)), rest)
    decreases e, 1
  {
    PrintStarts(e);
    if e.Cast? {
      var tail := ["::"] + TypeTokens(e.ty) + Brackets(e.brackets) + rest;
      assert Print(e) + rest == Print(e.operand) + tail;
      AtomAt(mysql, e.operand, tail);
      NormalizeCanonical(mysql, e.operand);
      CastShow(e.ty, Normalize(mysql, e.operand));
      CastStep(Show(Normalize(mysql, e.operand)), Show(Normalize(mysql, e)), e.ty, e.brackets, rest);
    } else {
      PrimaryAt(mysql, e, rest);
    }
  }

  lemma {:induction false} ParseAt(mysql: bool, minimum: nat, e: Src, rest: seq<string>)
    requires WellFormed(e) || WellFormedOperand(e)
    requires minimum <= 4 && Level(e) >= Needed(minimum) && Follows(e, rest)
    ensures Parse(mysql, minimum, Print(e) + rest) == Climb(mysql, minimum, Show(Normalize(mysql, e)), rest)
    decreases e, 2
  {
    if Level(e) == 5 {
      FollowShape(e, rest);
      AtomAt(mysql, e, rest);
    } else if e.Not? {
      NotAt(mysql, e.operand, rest);
    } else if e.Binary? {
      BinaryAt(mysql, minimum, e, rest);
    } else if e.IsNull? {
      IsNullAt(mysql, minimum, e.operand, e.negated, rest);
    } else {
      InAt(mysql, minimum, e.operand, e.items, rest);
    }
  }

  lemma NotAt(mysql: bool, operand: Src, rest: seq<string>)
    requires WellFormed(Not(operand)) && Follows(Not(operand), rest)
    ensures Atom(mysql, Print(Not(operand)) + rest) == Parsed(Show(Normalize(mysql, Not(operand))), rest)
    decreases operand, 3
  {
    var t := Normalize(mysql, operand);
    FollowShape(Not(operand), rest);
    ParseAt(mysql, 3, operand, rest);
    StopStep(mysql, 3, Show(t), rest);
    NormalizeCanonical(mysql, operand);
    ConditionShow(mysql, t);
    ShowNot(Conditioned(mysql, t));
    NotStep(mysql, Print(operand) + rest, Show(t), Show(Conditioned(mysql, t)), rest);
    assert ["not"] + Print(operand) + rest == ["not"] + (Print(operand) + rest);
  }

  lemma IsNullAt(mysql: bool, minimum: nat, operand: Src, negated: bool, rest: seq<string>)
    requires minimum <= 3 && WellFormed(IsNull(operand, negated))
    ensures Parse(mysql, minimum, Print(IsNull(operand, negated)) + rest)
         == Climb(mysql, minimum, Show(Normalize(mysql, IsNull(operand, negated))), rest)
    decreases operand, 3
  {
    var tail := ["is"] + (if negated then ["not", "null"] else ["null"]) + rest;
    assert Print(IsNull(operand, negated)) + rest == Print(operand) + tail;
    ParseAt(mysql, minimum, operand, tail);
    IsStep(mysql, minimum, Show(Normalize(mysql, operand)), negated, rest);
    ShowIsNull(Normalize(mysql, operand), negated);
  }

  lemma InAt(mysql: bool, minimum: nat, operand: Src, items: seq<Src>, rest: seq<string>)
    requires minimum <= 3 && WellFormed(In(operand, items))
    ensures Parse(mysql, minimum, Print(In(operand, items)) + rest)
         == Climb(mysql, minimum, Show(Normalize(mysql, In(operand, items))), rest)
    decreases In(operand, items), 1
  {
    var list, terms := PrintList(items) + ([")"] + rest), NormalizeAll(mysql, items);
    assert Print(In(operand, items)) + rest == Print(operand) + (["in", "("] + list);
    ParseAt(mysql, minimum, operand, ["in", "("] + list);
    ListAt(mysql, ")", items, rest);
    InStep(mysql, minimum, Show(Normalize(mysql, operand)), list, ShowAll(terms), rest);
    ShowIn(Normalize(mysql, operand), terms);
  }

  /** The levels of a binary node leave its operands readable on both sides of the operator. */
  lemma BinaryLevels(minimum: nat, e: Src, rest: seq<string>)
    requires e.Binary? && WellFormed(e)
    requires minimum <= 3 && Level(e) >= minimum && Follows(e, rest)
    ensures var p := Precedence(OpToken(e.op));
      && 1 <= p <= 3 && minimum <= p
      && Level(e.left) >= minimum && p <= Grip(e.left)
      && (WellFormed(e.right) || WellFormedOperand(e.right))
      && Level(e.right) >= Needed(p + 1) && Follows(e.right, rest)
      && (rest != [] ==> Precedence(rest[0]) < p + 1)
  {}

  lemma {:induction false} BinaryAt(mysql: bool, minimum: nat, e: Src, rest: seq<string>)
    requires e.Binary? && WellFormed(e)
    requires minimum <= 3 && Level(e) >= minimum && Follows(e, rest)
    ensures Parse(mysql, minimum, Print(e) + rest) == Climb(mysql, minimum, Show(Normalize(mysql, e)), rest)
    decreases e, 1
  {
    var token := OpToken(e.op);
    var tail := Print(e.right) + rest;
    BinaryLevels(minimum, e, rest);
    BinaryValue(mysql, e);
    LeftFollows(e, tail);
    ParseAt(mysql, minimum, e.left, [token] + tail);
    ParseAt(mysql, Precedence(token) + 1, e.right, rest);
    StopStep(mysql, Precedence(token) + 1, Show(Normalize(mysql, e.right)), rest);
    OperatorStep(mysql, minimum, Show(Normalize(mysql, e.left)), e.op, tail,
                 Show(Normalize(mysql, e.right)), rest, Show(Normalize(mysql, e)));
    Reassociate(Print(e.left), [token], Print(e.right), rest);
  }

  lemma LeftFollows(e: Src, tail: seq<string>)
    requires e.Binary? && 1 <= Precedence(OpToken(e.op)) <= Grip(e.left)
    ensures Follows(e.left, [OpToken(e.op)] + tail)
  {}

  lemma BinaryValue(mysql: bool, e: Src)
    requires e.Binary? && WellFormed(e)
    ensures Combine(mysql, OpToken(e.op), Show(Normalize(mysql, e.left)), Show(Normalize(mysql, e.right)))
         == Ok(Show(Normalize(mysql, e)))
  {
    NormalizeCanonical(mysql, e.left);
    NormalizeOperandCanonical(mysql, e.right);
    AnyItems(mysql, e.right);
    CombineShow(mysql, e.op, Normalize(mysql, e.left), Normalize(mysql, e.right));
  }

  /** An array under ANY is never empty. */
  lemma {:induction false} AnyItems(mysql: bool, e: Src)
    requires WellFormed(e) || WellFormedOperand(e)
    ensures var t := Normalize(mysql, e);
      && (IsAnyOfArray(t) ==> t.args[0].args != [])
      && (t.Node? && t.head == "array" ==> t.args != [])
      && (t.Node? && t.head == "any" ==> e.AnyOf?)
    decreases e
  {
    match e {
      case Group(inner) => AnyItems(mysql, inner);
      case Cast(operand, _, _) => AnyItems(mysql, operand);
      case AnyOf(operand) => AnyItems(mysql, operand);
      case _ =>
    }
  }

  lemma {:induction false} ListAt(mysql: bool, end: string, items: seq<Src>, rest: seq<string>)
    requires IsEnd(end) && AllWellFormed(items)
    ensures List(mysql, end, PrintList(items) + ([end] + rest)) == Items(ShowAll(NormalizeAll(mysql, items)), rest)
    decreases items, 1
  {
    if items == [] {
      assert [] + ([end] + rest) == [end] + rest;
      assert ([end] + rest)[1..] == rest;
    } else {
      ItemsAt(mysql, end, items, rest);
      PrintStarts(items[0]);
      NotEmptyList(mysql, end, PrintList(items) + ([end] + rest));
    }
  }

  lemma {:induction false} ItemsAt(mysql: bool, end: string, items: seq<Src>, rest: seq<string>)
    requires IsEnd(end) && AllWellFormed(items) && items != []
    ensures ListItems(mysql, end, PrintList(items) + ([end] + rest)) == Items(ShowAll(NormalizeAll(mysql, items)), rest)
    decreases items, 0
  {
    var tail := [end] + rest;
    if |items| == 1 {
      ItemAt(mysql, items[0], tail);
      LastItem(mysql, end, PrintList(items) + tail, Show(Normalize(mysql, items[0])), rest);
    } else {
      var more := PrintList(items[1..]) + tail;
      Reassociate(Print(items[0]), [","], PrintList(items[1..]), tail);
      ItemAt(mysql, items[0], [","] + more);
      ItemsAt(mysql, end, items[1..], rest);
      NextItem(mysql, end, PrintList(items) + tail, Show(Normalize(mysql, items[0])), more,
               ShowAll(NormalizeAll(mysql, items[1..])), rest);
    }
  }

  lemma ItemAt(mysql: bool, e: Src, rest: seq<string>)
    requires WellFormed(e) && rest != [] && (IsEnd(rest[0]) || rest[0] == ",")
    ensures Parse(mysql, 0, Print(e) + rest) == Parsed(Show(Normalize(mysql, e)), rest)
    decreases e, 3
  {
    ParseAt(mysql, 0, e, rest);
    StopStep(mysql, 0, Show(Normalize(mysql, e)), rest);
  }

  /** Every printing of a well-formed expression is accepted, with its normalized term as canonical string. */
  lemma CanonicalOfPrint(mysql: bool, e: Src)
    requires WellFormed(e)
    ensures CanonicalTokens(mysql, Print(e)) == Ok(Show(Conditioned(mysql, Normalize(mysql, e))))
  {
    assert Print(e) + [] == Print(e);
    ParseAt(mysql, 0, e, []);
    NormalizeCanonical(mysql, e);
    ConditionShow(mysql, Normalize(mysql, e));
  }
}
