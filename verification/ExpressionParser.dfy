/**
 * The precedence-climbing parser that rewrites a verification expression to its canonical
 * string (internal/migrations/expression.go).
 *
 * The functions say what each routine returns for the tokens that are left; the class
 * `Parser` is the parser itself, with the cursor `pos` that its methods advance. A slice
 * that Go would reject at run time is the error `SliceOutOfRange`.
 */
module ExpressionParser {
  import opened Outcomes
  import opened Text
  import opened Decimal
  import opened Tokenizer

  datatype ParseError =
    | LexicalError(lexical: LexError)
    | MissingExpression
    | TrailingTokens
    | OnlyIsNull
    | MissingValueList
    | UnclosedList
    | UnclosedGroup
    | MissingCastType
    | UnsupportedCastType
    | UnsupportedArrayCast
    | SliceOutOfRange

  datatype Parsed = Parsed(value: string, rest: seq<string>) | Failed(error: ParseError)
  datatype ParsedList = Items(items: seq<string>, rest: seq<string>) | ListFailed(error: ParseError)

  const ANY_ARRAY := "any(array("

  predicate At(tokens: seq<string>, token: string) { |tokens| > 0 && tokens[0] == token }

  function Precedence(op: string): nat {
    if op == "or" then 1
    else if op == "and" then 2
    else if op in {"=", ">", "<", ">=", "<=", "!=", "<>", "is", "in"} then 3
    else 0
  }

  function BoolText(b: bool): string { if b then "true" else "false" }

  /** The rewriting of MySQL's zero comparisons where a truth value is expected. */
  function Condition(mysql: bool, value: string): Result<string, ParseError>
    decreases |value|
  {
    if !mysql then Ok(value)
    else if "=(0," <= value then Negated(ConditionSlice(value, 4, 1))
    else if "=(" <= value && HasSuffix(value, ",0)") then Negated(ConditionSlice(value, 2, 3))
    else if "!=(0," <= value then ConditionSlice(value, 5, 1)
    else if "!=(" <= value && HasSuffix(value, ",0)") then ConditionSlice(value, 3, 3)
    else Ok(value)
  }

  /** Rewrites value[from : len(value)-drop]. */
  function ConditionSlice(value: string, from: nat, drop: nat): Result<string, ParseError>
    requires from > 0
    decreases |value|, 0
  {
    if from + drop > |value| then Err(SliceOutOfRange)
    else Condition(true, value[from..|value| - drop])
  }

  function Negated(operand: Result<string, ParseError>): Result<string, ParseError> {
    match operand case Ok(text) => Ok("not(" + text + ")") case Err(e) => Err(e)
  }

  predicate IsAnyArray(value: string) { ANY_ARRAY <= value && HasSuffix(value, "))") }

  /** The value of a binary operator applied to two parsed operands. */
  function Combine(mysql: bool, op: string, left: string, right: string): Result<string, ParseError> {
    if op == "=" && IsAnyArray(right) then
      if |ANY_ARRAY| + 2 > |right| then Err(SliceOutOfRange)
      else Ok("in(" + left + "," + right[|ANY_ARRAY|..|right| - 2] + ")")
    else if op == "and" || op == "or" then
      match Condition(mysql, left)
      case Err(e) => Err(e)
      case Ok(l) =>
        match Condition(mysql, right)
        case Err(e) => Err(e)
        case Ok(r) => Ok(op + "(" + l + "," + r + ")")
    else
      Ok((if op == "<>" then "!=" else op) + "(" + left + "," + right + ")")
  }

  function Parse(mysql: bool, minimum: nat, tokens: seq<string>): (r: Parsed)
    ensures r.Parsed? ==> |r.rest| < |tokens|
    decreases |tokens|, 2
  {
    match Atom(mysql, tokens)
    case Failed(e) => Failed(e)
    case Parsed(left, rest) => Climb(mysql, minimum, left, rest)
  }

  /** The operator loop of `Parse`, entered with the left operand already read. */
  function Climb(mysql: bool, minimum: nat, left: string, tokens: seq<string>): (r: Parsed)
    ensures r.Parsed? ==> |r.rest| <= |tokens|
    decreases |tokens|, 1
  {
    if tokens == [] || Precedence(tokens[0]) == 0 || Precedence(tokens[0]) < minimum then Parsed(left, tokens)
    else match Extend(mysql, tokens[0], left, tokens[1..])
      case Failed(e) => Failed(e)
      case Parsed(value, rest) => Climb(mysql, minimum, value, rest)
  }

  /** One operator applied to the left operand and to what follows the operator. */
  function Extend(mysql: bool, op: string, left: string, tokens: seq<string>): (r: Parsed)
    ensures r.Parsed? ==> |r.rest| < |tokens|
    decreases |tokens|, 3
  {
    if op == "is" then
      var negated := At(tokens, "not");
      var after := if negated then tokens[1..] else tokens;
      if !At(after, "null") then Failed(OnlyIsNull)
      else Parsed("isnull(" + left + "," + BoolText(negated) + ")", after[1..])
    else if op == "in" then
      if !At(tokens, "(") then Failed(MissingValueList)
      else match List(mysql, ")", tokens[1..])
        case ListFailed(e) => Failed(e)
        case Items(items, rest) => Parsed("in(" + left + "," + Join(items, ",") + ")", rest)
    else match Parse(mysql, Precedence(op) + 1, tokens)
      case Failed(e) => Failed(e)
      case Parsed(right, rest) =>
        match Combine(mysql, op, left, right)
        case Err(e) => Failed(e)
        case Ok(value) => Parsed(value, rest)
  }

  function Atom(mysql: bool, tokens: seq<string>): (r: Parsed)
    ensures r.Parsed? ==> |r.rest| < |tokens|
    decreases |tokens|, 1
  {
    if tokens == [] then Failed(MissingExpression)
    else if tokens[0] == "not" then
      match Parse(mysql, 3, tokens[1..])
      case Failed(e) => Failed(e)
      case Parsed(value, rest) =>
        match Condition(mysql, value)
        case Err(e) => Failed(e)
        case Ok(operand) => Parsed("not(" + operand + ")", rest)
    else match Primary(mysql, tokens)
      case Failed(e) => Failed(e)
      case Parsed(value, rest) => Casts(value, rest)
  }

  /** A group, an array, a call or a single token. */
  function Primary(mysql: bool, tokens: seq<string>): (r: Parsed)
    requires |tokens| > 0
    ensures r.Parsed? ==> |r.rest| < |tokens|
    decreases |tokens|, 0
  {
    if tokens[0] == "(" then
      match Parse(mysql, 0, tokens[1..])
      case Failed(e) => Failed(e)
      case Parsed(value, rest) => if At(rest, ")") then Parsed(value, rest[1..]) else Failed(UnclosedGroup)
    else if tokens[0] == "array" && At(tokens[1..], "[") then Application(mysql, "array", "]", tokens[2..])
    else if At(tokens[1..], "(") then Application(mysql, tokens[0], ")", tokens[2..])
    else Parsed(tokens[0], tokens[1..])
  }

  function Application(mysql: bool, name: string, end: string, tokens: seq<string>): (r: Parsed)
    ensures r.Parsed? ==> |r.rest| < |tokens|
    decreases |tokens|, 5
  {
    match List(mysql, end, tokens)
    case ListFailed(e) => Failed(e)
    case Items(items, rest) => Parsed(name + "(" + Join(items, ",") + ")", rest)
  }

  function List(mysql: bool, end: string, tokens: seq<string>): (r: ParsedList)
    ensures r.Items? ==> |r.rest| < |tokens|
    decreases |tokens|, 4, 0
  {
    if At(tokens, end) then Items([], tokens[1..]) else ListItems(mysql, end, tokens)
  }

  function ListItems(mysql: bool, end: string, tokens: seq<string>): (r: ParsedList)
    ensures r.Items? ==> |r.rest| < |tokens|
    decreases |tokens|, 3
  {
    match Parse(mysql, 0, tokens)
    case Failed(e) => ListFailed(e)
    case Parsed(value, rest) =>
      if At(rest, end) then Items([value], rest[1..])
      else if !At(rest, ",") then ListFailed(UnclosedList)
      else match ListItems(mysql, end, rest[1..])
        case ListFailed(e) => ListFailed(e)
        case Items(items, after) => Items([value] + items, after)
  }

  predicate IsIntegerType(ty: string) { ty in {"bigint", "integer", "smallint"} }

  /** Dropping a cast; an integer cast of a quoted integer leaves the integer. */
  function CastValue(ty: string, value: string): Result<string, ParseError> {
    if IsIntegerType(ty) && StartsWith(value, '\'') && HasSuffix(value, "'") then
      if |value| < 2 then Err(SliceOutOfRange)
      else match ParseInt64(value[1..|value| - 1])
        case Some(n) => Ok(FormatInt(n))
        case None => Ok(value)
    else Ok(value)
  }

  /** The tokens after a supported type name. */
  function AfterTypeName(tokens: seq<string>): (r: Result<seq<string>, ParseError>)
    ensures r.Ok? ==> |r.value| < |tokens|
  {
    if tokens == [] then Err(MissingCastType)
    else if tokens[0] == "character" then
      if At(tokens[1..], "varying") then Ok(tokens[2..]) else Err(UnsupportedCastType)
    else if IsIntegerType(tokens[0]) || tokens[0] in {"text", "jsonb", "boolean"} then Ok(tokens[1..])
    else Err(UnsupportedCastType)
  }

  /** The tokens after an optional pair of array brackets. */
  function AfterBrackets(tokens: seq<string>): (r: Result<seq<string>, ParseError>)
    ensures r.Ok? ==> |r.value| <= |tokens|
  {
    if !At(tokens, "[") then Ok(tokens)
    else if At(tokens[1..], "]") then Ok(tokens[2..])
    else Err(UnsupportedArrayCast)
  }

  /** One cast, from just after its `::`. */
  function OneCast(value: string, tokens: seq<string>): (r: Parsed)
    ensures r.Parsed? ==> |r.rest| < |tokens|
  {
    match AfterTypeName(tokens)
    case Err(e) => Failed(e)
    case Ok(rest) =>
      match CastValue(tokens[0], value)
      case Err(e) => Failed(e)
      case Ok(converted) =>
        match AfterBrackets(rest)
        case Err(e) => Failed(e)
        case Ok(after) => Parsed(converted, after)
  }

  function Casts(value: string, tokens: seq<string>): (r: Parsed)
    ensures r.Parsed? ==> |r.rest| <= |tokens|
    decreases |tokens|
  {
    if !At(tokens, "::") then Parsed(value, tokens)
    else match OneCast(value, tokens[1..])
      case Failed(e) => Failed(e)
      case Parsed(converted, rest) => Casts(converted, rest)
  }

  /** The canonical string of a token sequence. */
  function CanonicalTokens(mysql: bool, tokens: seq<string>): Result<string, ParseError> {
    match Parse(mysql, 0, tokens)
    case Failed(e) => Err(e)
    case Parsed(value, rest) => if rest == [] then Condition(mysql, value) else Err(TrailingTokens)
  }

  /** The canonical string of a text whose MySQL literals, if any, are already standard. */
  function Canonical(mysql: bool, sql: string): Result<string, ParseError> {
    match Lex(sql)
    case Err(e) => Err(LexicalError(e))
    case Ok(tokens) => CanonicalTokens(mysql, tokens)
  }

  class Parser {
    const tokens: seq<string>
    const mysql: bool
    var pos: nat

    constructor (tokens: seq<string>, mysql: bool)
      ensures this.tokens == tokens && this.mysql == mysql && pos == 0
    {
      this.tokens, this.mysql, pos := tokens, mysql, 0;
    }

    ghost predicate Valid()
      reads this
    {
      pos <= |tokens|
    }

    ghost function Rest(): seq<string>
      reads this
      requires Valid()
    {
      tokens[pos..]
    }

    /** The cursor moved to exactly the tokens that `r` leaves. */
    ghost predicate Left(r: Parsed)
      reads this
    {
      Valid() && (r.Parsed? ==> Rest() == r.rest)
    }

    method Take(token: string) returns (taken: bool)
      requires Valid()
      modifies this`pos
      ensures Valid() && taken == At(old(Rest()), token)
      ensures Rest() == if taken then old(Rest())[1..] else old(Rest())
    {
      if pos < |tokens| && tokens[pos] == token {
        pos := pos + 1;
        return true;
      }
      return false;
    }

    method RunCondition(value: string) returns (result: Result<string, ParseError>)
      ensures result == Condition(mysql, value)
      decreases |value|
    {
      if !mysql {
        return Ok(value);
      }
      var negated := true;
      var from, drop := 0, 0;
      if "=(0," <= value {
        from, drop := 4, 1;
      } else if "=(" <= value && HasSuffix(value, ",0)") {
        from, drop := 2, 3;
      } else if "!=(0," <= value {
        negated, from, drop := false, 5, 1;
      } else if "!=(" <= value && HasSuffix(value, ",0)") {
        negated, from, drop := false, 3, 3;
      } else {
        return Ok(value);
      }
      if from + drop > |value| {
        return Err(SliceOutOfRange);
      }
      var operand := RunCondition(value[from..|value| - drop]);
      return if negated then Negated(operand) else operand;
    }

    method RunParse(minimum: nat) returns (result: Parsed)
      requires Valid()
      modifies this`pos
      ensures result == Parse(mysql, minimum, old(Rest())) && Left(result)
      decreases |tokens| - pos, 2
    {
      ghost var start := Rest();
      result := RunAtom();
      if result.Failed? {
        return;
      }
      var left := result.value;
      while pos < |tokens|
        invariant Valid() && |Rest()| < |start|
        invariant Parse(mysql, minimum, start) == Climb(mysql, minimum, left, Rest())
      {
        var op := tokens[pos];
        var precedence := Precedence(op);
        if precedence == 0 || precedence < minimum {
          break;
        }
        ghost var here := Rest();
        pos := pos + 1;
        assert Rest() == here[1..];
        result := RunExtend(op, left);
        if result.Failed? {
          return;
        }
        left := result.value;
      }
      return Parsed(left, tokens[pos..]);
    }

    /** The body of the operator loop, with the operator taken. */
    method RunExtend(op: string, left: string) returns (result: Parsed)
      requires Valid()
      modifies this`pos
      ensures result == Extend(mysql, op, left, old(Rest())) && Left(result)
      decreases |tokens| - pos, 3
    {
      if op == "is" {
        var negated := Take("not");
        var isNull := Take("null");
        if !isNull {
          return Failed(OnlyIsNull);
        }
        return Parsed("isnull(" + left + "," + BoolText(negated) + ")", tokens[pos..]);
      }
      if op == "in" {
        var entered := Take("(");
        if !entered {
          return Failed(MissingValueList);
        }
        var items := RunList(")");
        if items.ListFailed? {
          return Failed(items.error);
        }
        return Parsed("in(" + left + "," + Join(items.items, ",") + ")", tokens[pos..]);
      }
      var right := RunParse(Precedence(op) + 1);
      if right.Failed? {
        return right;
      }
      var combined := RunCombine(op, left, right.value);
      match combined {
        case Err(e) => return Failed(e);
        case Ok(value) => return Parsed(value, tokens[pos..]);
      }
    }

    method RunCombine(op: string, left: string, right: string) returns (result: Result<string, ParseError>)
      ensures result == Combine(mysql, op, left, right)
    {
      if op == "=" && IsAnyArray(right) {
        if |ANY_ARRAY| + 2 > |right| {
          return Err(SliceOutOfRange);
        }
        return Ok("in(" + left + "," + right[|ANY_ARRAY|..|right| - 2] + ")");
      }
      if op == "and" || op == "or" {
        var l := RunCondition(left);
        if l.Err? {
          return l;
        }
        var r := RunCondition(right);
        if r.Err? {
          return r;
        }
        return Ok(op + "(" + l.value + "," + r.value + ")");
      }
      return Ok((if op == "<>" then "!=" else op) + "(" + left + "," + right + ")");
    }

    method RunAtom() returns (result: Parsed)
      requires Valid()
      modifies this`pos
      ensures result == Atom(mysql, old(Rest())) && Left(result)
      decreases |tokens| - pos, 1
    {
      if pos == |tokens| {
        return Failed(MissingExpression);
      }
      var isNot := Take("not");
      if isNot {
        result := RunParse(3);
        if result.Parsed? {
          var operand := RunCondition(result.value);
          match operand {
            case Ok(text) => result := Parsed("not(" + text + ")", result.rest);
            case Err(e) => result := Failed(e);
          }
        }
        return;
      }
      result := RunPrimary();
      if result.Parsed? {
        result := RunCasts(result.value);
      }
    }

    method RunPrimary() returns (result: Parsed)
      requires Valid() && pos < |tokens|
      modifies this`pos
      ensures result == Primary(mysql, old(Rest())) && Left(result)
      decreases |tokens| - pos, 0
    {
      var grouped := Take("(");
      if grouped {
        result := RunParse(0);
        if result.Parsed? {
          var closed := Take(")");
          result := if closed then Parsed(result.value, tokens[pos..]) else Failed(UnclosedGroup);
        }
        return;
      }
      var value := tokens[pos];
      ghost var start := Rest();
      pos := pos + 1;
      assert Rest() == start[1..];
      var entered := false;
      if value == "array" {
        entered := Take("[");
      }
      if entered {
        result := RunApplication("array", "]");
        return;
      }
      entered := Take("(");
      if entered {
        result := RunApplication(value, ")");
        return;
      }
      return Parsed(value, tokens[pos..]);
    }

    method RunApplication(name: string, end: string) returns (result: Parsed)
      requires Valid()
      modifies this`pos
      ensures result == Application(mysql, name, end, old(Rest())) && Left(result)
      decreases |tokens| - pos, 5
    {
      var items := RunList(end);
      match items {
        case ListFailed(e) => result := Failed(e);
        case Items(values, rest) => result := Parsed(name + "(" + Join(values, ",") + ")", rest);
      }
    }

    method RunList(end: string) returns (result: ParsedList)
      requires Valid()
      modifies this`pos
      ensures result == List(mysql, end, old(Rest()))
      ensures Valid() && (result.Items? ==> Rest() == result.rest)
      decreases |tokens| - pos, 4
    {
      ghost var start := Rest();
      var items: seq<string> := [];
      var empty := Take(end);
      if empty {
        return Items(items, tokens[pos..]);
      }
      GatherNone(mysql, end, start);
      while true
        invariant Valid() && |Rest()| <= |start|
        invariant ListItems(mysql, end, start) == Gathered(mysql, end, items, Rest())
        decreases |tokens| - pos
      {
        ghost var here := Rest();
        var value := RunParse(0);
        GatherStep(mysql, end, items, here, value);
        if value.Failed? {
          return ListFailed(value.error);
        }
        items := items + [value.value];
        var ended := Take(end);
        if ended {
          return Items(items, tokens[pos..]);
        }
        var more := Take(",");
        if !more {
          return ListFailed(UnclosedList);
        }
      }
    }

    method RunCasts(operand: string) returns (result: Parsed)
      requires Valid()
      modifies this`pos
      ensures result == Casts(operand, old(Rest())) && Left(result)
    {
      ghost var start := Rest();
      var value := operand;
      while true
        invariant Valid()
        invariant Casts(operand, start) == Casts(value, Rest())
        decreases |tokens| - pos
      {
        var cast := Take("::");
        if !cast {
          return Parsed(value, tokens[pos..]);
        }
        result := RunOneCast(value);
        if result.Failed? {
          return;
        }
        value := result.value;
      }
    }

    /** The body of the cast loop, with the `::` taken. */
    method RunOneCast(value: string) returns (result: Parsed)
      requires Valid()
      modifies this`pos
      ensures result == OneCast(value, old(Rest())) && Left(result)
    {
      if pos == |tokens| {
        return Failed(MissingCastType);
      }
      ghost var here := Rest();
      var ty := tokens[pos];
      var converted := value;
      pos := pos + 1;
      assert Rest() == here[1..];
      if IsIntegerType(ty) {
        var number := CastValue(ty, value);
        if number.Err? {
          return Failed(number.error);
        }
        converted := number.value;
      } else if ty == "character" {
        var varying := Take("varying");
        if !varying {
          return Failed(UnsupportedCastType);
        }
      } else if ty !in {"text", "jsonb", "boolean"} {
        return Failed(UnsupportedCastType);
      }
      var bracket := Take("[");
      if bracket {
        var closed := Take("]");
        if !closed {
          return Failed(UnsupportedArrayCast);
        }
      }
      return Parsed(converted, tokens[pos..]);
    }
  }

  /** The items already read, followed by those that `tokens` still hold. */
  ghost function Gathered(mysql: bool, end: string, items: seq<string>, tokens: seq<string>): ParsedList {
    match ListItems(mysql, end, tokens)
    case Items(more, rest) => Items(items + more, rest)
    case ListFailed(e) => ListFailed(e)
  }

  lemma GatherNone(mysql: bool, end: string, tokens: seq<string>)
    ensures ListItems(mysql, end, tokens) == Gathered(mysql, end, [], tokens)
  {
    var list := ListItems(mysql, end, tokens);
    assert list.Items? ==> [] + list.items == list.items;
  }

  /** What is left to do after one more item. */
  lemma GatherStep(mysql: bool, end: string, items: seq<string>, tokens: seq<string>, item: Parsed)
    requires item == Parse(mysql, 0, tokens)
    ensures Gathered(mysql, end, items, tokens) ==
      if item.Failed? then ListFailed(item.error)
      else if At(item.rest, end) then Items(items + [item.value], item.rest[1..])
      else if !At(item.rest, ",") then ListFailed(UnclosedList)
      else Gathered(mysql, end, items + [item.value], item.rest[1..])
  {
    if item.Parsed? && !At(item.rest, end) && At(item.rest, ",") {
      var tail := ListItems(mysql, end, item.rest[1..]);
      if tail.Items? {
        assert items + ([item.value] + tail.items) == items + [item.value] + tail.items;
      }
    }
  }

  method ParseExpression(sql: string, mysql: bool) returns (result: Result<string, ParseError>)
    ensures result == Canonical(mysql, sql)
  {
    var tokens := Tokenize(sql);
    if tokens.Err? {
      return Err(LexicalError(tokens.error));
    }
    var p := new Parser(tokens.value, mysql);
    var value := p.RunParse(0);
    if value.Failed? {
      return Err(value.error);
    }
    if p.pos != |p.tokens| {
      return Err(TrailingTokens);
    }
    result := p.RunCondition(value.value);
  }
}
