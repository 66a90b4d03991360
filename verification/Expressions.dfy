/**
 * The grammar of verification expressions and the canonical terms they are rewritten to.
 *
 * `Src` is a concrete syntax tree: a `Group` node is a pair of parentheses, so every
 * correctly parenthesised printing of an expression is `Print` of one well-formed tree.
 * `Term` is the tree that a canonical string shows; `Normalize` is the rewriting on trees.
 */
module Expressions {
  import opened Outcomes
  import opened Text
  import opened Decimal
  import opened Tokenizer
  import opened ExpressionParser

  datatype Op = Or | And | Eq | Gt | Lt | Ge | Le | Ne(angled: bool)

  datatype CastType = TextType | JsonType | VaryingType | BooleanType | BigIntType | IntegerType | SmallIntType

  datatype Src =
    | Column(name: string)
    | Number(text: string)
    | Literal(content: string)
    | Group(inner: Src)
    | Array(items: seq<Src>)
    | Call(name: string, args: seq<Src>)
    | Cast(operand: Src, ty: CastType, brackets: bool)
    | Not(operand: Src)
    | Binary(op: Op, left: Src, right: Src)
    | IsNull(operand: Src, negated: bool)
    | In(operand: Src, items: seq<Src>)
    | AnyOf(operand: Src)

  datatype Term = Word(text: string) | Quoted(content: string) | Node(head: string, args: seq<Term>)

  // ----- lexical classes -----

  const RESERVED: set<string> := {"or", "and", "not", "is", "in", "array", "any", "isnull"}
  const SYMBOLS: set<string> := {"=", "!=", "<", ">", "<=", ">="}

  predicate IsWordToken(w: string) {
    && |w| > 0
    && (forall i :: 0 <= i < |w| ==> IsWordChar(w[i]))
    && ToLower(w) == w
    && !("--" <= w)
  }

  predicate IsName(w: string) {
    IsWordToken(w) && ('a' <= w[0] <= 'z' || w[0] == '_') && w !in RESERVED
  }

  /** The text without its sign. */
  function Unsigned(w: string): string { if StartsWith(w, '-') then w[1..] else w }

  predicate IsInteger(w: string) { |Unsigned(w)| > 0 && AllDigits(Unsigned(w)) }

  /** Where the decimal point is, or the end. */
  function Point(s: string): (n: nat)
    ensures n <= |s|
    ensures forall i :: 0 <= i < n ==> s[i] != '.'
    ensures n < |s| ==> s[n] == '.'
  {
    if s == [] || s[0] == '.' then 0 else 1 + Point(s[1..])
  }

  /** Digits, with a point between two of them if there is one. */
  predicate IsNumeral(w: string) {
    var s := Unsigned(w);
    var n := Point(s);
    0 < n && AllDigits(s[..n]) && (n < |s| ==> n + 1 < |s| && AllDigits(s[n + 1..]))
  }

  function Doubled(content: string): string {
    if content == [] then []
    else if content[0] == '\'' then "''" + Doubled(content[1..])
    else [content[0]] + Doubled(content[1..])
  }

  function Quote(content: string): string { "'" + Doubled(content) + "'" }

  // ----- source trees -----

  function OpToken(op: Op): string {
    match op
    case Or => "or" case And => "and" case Eq => "=" case Gt => ">" case Lt => "<"
    case Ge => ">=" case Le => "<=" case Ne(angled) => if angled then "<>" else "!="
  }

  function OpHead(op: Op): string { if op.Ne? then "!=" else OpToken(op) }

  predicate IsLogical(op: Op) { op.Or? || op.And? }

  /** Binding strength: OR 1, AND 2, NOT 3, comparisons, IS and IN 4, everything else 5. */
  function Level(e: Src): nat {
    match e
    case Binary(op, _, _) => if op.Or? then 1 else if op.And? then 2 else 4
    case Not(_) => 3
    case IsNull(_, _) => 4
    case In(_, _) => 4
    case _ => 5
  }

  predicate WellFormed(e: Src)
    decreases e, 0
  {
    match e
    case Column(name) => IsName(name)
    case Number(text) => IsNumeral(text)
    case Literal(_) => true
    case Group(inner) => WellFormed(inner)
    case Array(items) => |items| > 0 && AllWellFormed(items)
    case Call(name, args) => IsName(name) && AllWellFormed(args)
    case Cast(operand, _, _) => Level(operand) == 5 && WellFormed(operand)
    case Not(operand) => Level(operand) >= 3 && WellFormed(operand)
    case Binary(op, left, right) =>
      && WellFormed(left)
      && (match op
          case Or => Level(right) >= 2 && WellFormed(right)
          case And => Level(left) >= 2 && Level(right) >= 3 && WellFormed(right)
          case _ => Level(left) >= 4 && WellFormedOperand(right))
    case IsNull(operand, _) => Level(operand) >= 4 && WellFormed(operand)
    case In(operand, items) => Level(operand) >= 4 && WellFormed(operand) && |items| > 0 && AllWellFormed(items)
    case AnyOf(_) => false
  }

  /** The right operand of a comparison: an atom, or ANY over one array. */
  predicate WellFormedOperand(e: Src)
    decreases e, 1
  {
    if e.AnyOf? then WellFormed(e.operand) else Level(e) == 5 && WellFormed(e)
  }

  predicate AllWellFormed(items: seq<Src>)
    decreases items
  {
    items == [] || (WellFormed(items[0]) && AllWellFormed(items[1..]))
  }

  function TypeTokens(ty: CastType): seq<string> {
    match ty
    case TextType => ["text"] case JsonType => ["jsonb"] case VaryingType => ["character", "varying"]
    case BooleanType => ["boolean"] case BigIntType => ["bigint"] case IntegerType => ["integer"]
    case SmallIntType => ["smallint"]
  }

  predicate IsIntegral(ty: CastType) { ty.BigIntType? || ty.IntegerType? || ty.SmallIntType? }

  function Print(e: Src): (r: seq<string>)
    ensures |r| > 0
    decreases e
  {
    match e
    case Column(name) => [name]
    case Number(text) => [text]
    case Literal(content) => [Quote(content)]
    case Group(inner) => ["("] + Print(inner) + [")"]
    case Array(items) => ["array", "["] + PrintList(items) + ["]"]
    case Call(name, args) => [name, "("] + PrintList(args) + [")"]
    case Cast(operand, ty, brackets) =>
      Print(operand) + ["::"] + TypeTokens(ty) + (if brackets then ["[", "]"] else [])
    case Not(operand) => ["not"] + Print(operand)
    case Binary(op, left, right) => Print(left) + [OpToken(op)] + Print(right)
    case IsNull(operand, negated) => Print(operand) + ["is"] + (if negated then ["not", "null"] else ["null"])
    case In(operand, items) => Print(operand) + ["in", "("] + PrintList(items) + [")"]
    case AnyOf(operand) => ["any", "("] + Print(operand) + [")"]
  }

  function PrintList(items: seq<Src>): seq<string>
    decreases items
  {
    if items == [] then []
    else if |items| == 1 then Print(items[0])
    else Print(items[0]) + [","] + PrintList(items[1..])
  }

  // ----- canonical terms -----

  function Show(t: Term): string
    decreases t
  {
    match t
    case Word(text) => text
    case Quoted(content) => Quote(content)
    case Node(head, args) => head + "(" + Join(ShowAll(args), ",") + ")"
  }

  function ShowAll(args: seq<Term>): (r: seq<string>)
    ensures |r| == |args|
    ensures forall i :: 0 <= i < |args| ==> r[i] == Show(args[i])
    decreases args
  {
    if args == [] then [] else [Show(args[0])] + ShowAll(args[1..])
  }

  predicate IsAnyOfArray(t: Term) {
    t.Node? && t.head == "any" && |t.args| == 1 && t.args[0].Node? && t.args[0].head == "array"
  }

  predicate IsZero(t: Term) { t == Word("0") }

  /** `Condition` on terms. */
  function Conditioned(mysql: bool, t: Term): Term
    decreases t
  {
    if !mysql || !t.Node? || |t.args| != 2 then t
    else if t.head == "=" && IsZero(t.args[0]) then Node("not", [Conditioned(mysql, t.args[1])])
    else if t.head == "=" && IsZero(t.args[1]) then Node("not", [Conditioned(mysql, t.args[0])])
    else if t.head == "!=" && IsZero(t.args[0]) then Conditioned(mysql, t.args[1])
    else if t.head == "!=" && IsZero(t.args[1]) then Conditioned(mysql, t.args[0])
    else t
  }

  function NormalizeCast(ty: CastType, t: Term): Term {
    if IsIntegral(ty) && t.Quoted? && ParseInt64(Doubled(t.content)).Some? then
      Word(FormatInt(ParseInt64(Doubled(t.content)).value))
    else t
  }

  function NormalizeBinary(mysql: bool, op: Op, left: Term, right: Term): Term {
    if op.Eq? && IsAnyOfArray(right) then Node("in", [left] + right.args[0].args)
    else if IsLogical(op) then Node(OpHead(op), [Conditioned(mysql, left), Conditioned(mysql, right)])
    else Node(OpHead(op), [left, right])
  }

  function Normalize(mysql: bool, e: Src): Term
    decreases e
  {
    match e
    case Column(name) => Word(name)
    case Number(text) => Word(text)
    case Literal(content) => Quoted(content)
    case Group(inner) => Normalize(mysql, inner)
    case Array(items) => Node("array", NormalizeAll(mysql, items))
    case Call(name, args) => Node(name, NormalizeAll(mysql, args))
    case Cast(operand, ty, _) => NormalizeCast(ty, Normalize(mysql, operand))
    case Not(operand) => Node("not", [Conditioned(mysql, Normalize(mysql, operand))])
    case Binary(op, left, right) => NormalizeBinary(mysql, op, Normalize(mysql, left), Normalize(mysql, right))
    case IsNull(operand, negated) => Node("isnull", [Normalize(mysql, operand), Word(BoolText(negated))])
    case In(operand, items) => Node("in", [Normalize(mysql, operand)] + NormalizeAll(mysql, items))
    case AnyOf(operand) => Node("any", [Normalize(mysql, operand)])
  }

  function NormalizeAll(mysql: bool, items: seq<Src>): (r: seq<Term>)
    ensures |r| == |items|
    ensures forall i :: 0 <= i < |items| ==> r[i] == Normalize(mysql, items[i])
    decreases items
  {
    if items == [] then [] else [Normalize(mysql, items[0])] + NormalizeAll(mysql, items[1..])
  }

  /** The terms whose strings read back uniquely. */
  predicate CanonicalTerm(t: Term)
    decreases t
  {
    match t
    case Word(text) => IsName(text) || IsNumeral(text)
    case Quoted(_) => true
    case Node(head, args) =>
      && (IsName(head) || head in SYMBOLS || head in RESERVED)
      && (head in {"not", "any"} ==> |args| == 1)
      && (head in SYMBOLS ==> |args| == 2)
      && AllCanonical(args)
  }

  predicate AllCanonical(args: seq<Term>)
    decreases args
  {
    args == [] || (CanonicalTerm(args[0]) && AllCanonical(args[1..]))
  }
}
