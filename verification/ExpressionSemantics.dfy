/**
 * A three-valued SQL meaning for source trees and for canonical terms.
 *
 * A `Db` fixes one row together with everything the dialect leaves to the database: the
 * values of columns, functions, collation and text-to-number conversion. `Eval` gives casts
 * their real meaning as conversions; that dropping them is harmless is a theorem about the
 * expressions whose casts are type-preserving.
 */
module ExpressionSemantics {
  import opened Outcomes
  import opened Text
  import opened Decimal
  import opened Tokenizer
  import opened ExpressionParser
  import opened Expressions

  datatype Value = Null | Bool(b: bool) | Num(n: real) | Str(s: string) | List(items: seq<Value>)

  datatype Tri = True | False | Unknown

  datatype Db = Db(
    mysql: bool,
    column: string -> Value,
    call: (string, seq<Value>) -> Value,
    collate: (string, string) -> int,
    textNum: string -> real,
    numText: real -> string,
    round: real -> int)

  // ----- truth -----

  function And3(a: Tri, b: Tri): Tri {
    if a.False? || b.False? then False else if a.True? && b.True? then True else Unknown
  }

  function Or3(a: Tri, b: Tri): Tri {
    if a.True? || b.True? then True else if a.False? && b.False? then False else Unknown
  }

  function Not3(a: Tri): Tri {
    match a case True => False case False => True case Unknown => Unknown
  }

  function Known(b: bool): Tri { if b then True else False }

  /** MySQL has no boolean type: its truth values are the numbers 1 and 0. */
  function FromTri(db: Db, t: Tri): Value {
    if t.Unknown? then Null else if db.mysql then Num(if t.True? then 1.0 else 0.0) else Bool(t.True?)
  }

  function Truth(db: Db, v: Value): Tri {
    match v
    case Null => Unknown
    case Bool(b) => Known(b)
    case Num(n) => Known(n != 0.0)
    case Str(s) => Known(db.textNum(s) != 0.0)
    case List(_) => Unknown
  }

  // ----- comparison -----

  function AsNumber(db: Db, v: Value): Option<real> {
    match v
    case Num(n) => Some(n)
    case Bool(b) => Some(if b then 1.0 else 0.0)
    case Str(s) => Some(db.textNum(s))
    case _ => None
  }

  function Sign(x: real): int { if x < 0.0 then -1 else if x > 0.0 then 1 else 0 }

  /** The sign that orders two values, when they can be compared. */
  function Order(db: Db, a: Value, b: Value): Option<int> {
    if a.Str? && b.Str? then Some(db.collate(a.s, b.s))
    else match (AsNumber(db, a), AsNumber(db, b))
      case (Some(x), Some(y)) => Some(Sign(x - y))
      case _ => None
  }

  function Holds(op: Op, order: int): bool {
    match op
    case Eq => order == 0 case Ne(_) => order != 0
    case Lt => order < 0 case Gt => order > 0
    case Le => order <= 0 case Ge => order >= 0
    case _ => false
  }

  function Compare(db: Db, op: Op, a: Value, b: Value): Tri {
    match Order(db, a, b) case Some(order) => Known(Holds(op, order)) case None => Unknown
  }

  /** `a op ANY (array)`: true if some comparison is true, false if all are false. */
  function CompareAny(db: Db, op: Op, a: Value, elements: Value): Tri {
    if !elements.List? then Unknown
    else if exists i :: 0 <= i < |elements.items| && Compare(db, op, a, elements.items[i]).True? then True
    else if forall i :: 0 <= i < |elements.items| ==> Compare(db, op, a, elements.items[i]).False? then False
    else Unknown
  }

  /** `a IN (items)`: the disjunction of the equalities. */
  function InList(db: Db, a: Value, items: seq<Value>): Tri {
    if items == [] then False else Or3(Compare(db, Eq, a, items[0]), InList(db, a, items[1..]))
  }

  // ----- casts -----

  predicate IsWhole(x: real) { x.Floor as real == x }

  /** What a number becomes under an integer cast and as text: the database decides for fractions. */
  function Rounded(db: Db, x: real): real { if IsWhole(x) then x else db.round(x) as real }

  function NumberText(db: Db, x: real): string { if IsWhole(x) then FormatInt(x.Floor) else db.numText(x) }

  function CastScalar(db: Db, ty: CastType, v: Value): Value {
    if v.Null? || v.List? then Null
    else if IsIntegral(ty) then
      match v
      case Num(n) => Num(Rounded(db, n))
      case Bool(b) => Num(if b then 1.0 else 0.0)
      case Str(s) => if ParseInt64(s).Some? then Num(ParseInt64(s).value as real) else Null
    else if ty.BooleanType? then
      match v
      case Bool(b) => FromTri(db, Known(b))
      case Num(n) => FromTri(db, Known(n != 0.0))
      case Str(s) => if s in {"t", "true"} then FromTri(db, True) else if s in {"f", "false"} then FromTri(db, False) else Null
    else
      match v
      case Num(n) => Str(NumberText(db, n))
      case Bool(b) => Str(BoolText(b))
      case Str(s) => v
  }

  function CastAll(db: Db, ty: CastType, items: seq<Value>): (r: seq<Value>)
    ensures |r| == |items|
    ensures forall i :: 0 <= i < |items| ==> r[i] == CastScalar(db, ty, items[i])
  {
    seq(|items|, i requires 0 <= i < |items| => CastScalar(db, ty, items[i]))
  }

  function CastTo(db: Db, ty: CastType, brackets: bool, v: Value): Value {
    if !brackets then CastScalar(db, ty, v)
    else if v.List? then List(CastAll(db, ty, v.items))
    else Null
  }

  // ----- meaning of words, source trees and terms -----

  /** Ten to the power of minus `n`. */
  function Tenths(n: nat): real { if n == 0 then 1.0 else Tenths(n - 1) / 10.0 }

  function NumeralValue(w: string): real
    requires IsNumeral(w)
  {
    var s := Unsigned(w);
    var n := Point(s);
    var fraction := if n < |s| then ValueOf(s[n + 1..]) as real * Tenths(|s| - n - 1) else 0.0;
    var magnitude := ValueOf(s[..n]) as real + fraction;
    if StartsWith(w, '-') then -magnitude else magnitude
  }

  function WordValue(db: Db, w: string): Value {
    if IsNumeral(w) then Num(NumeralValue(w))
    else if w == "null" then Null
    else if w == "true" then FromTri(db, True)
    else if w == "false" then FromTri(db, False)
    else db.column(w)
  }

  function Eval(db: Db, e: Src): Value
    decreases e
  {
    match e
    case Column(name) => WordValue(db, name)
    case Number(text) => WordValue(db, text)
    case Literal(content) => Str(content)
    case Group(inner) => Eval(db, inner)
    case Array(items) => List(EvalAll(db, items))
    case Call(name, args) => db.call(name, EvalAll(db, args))
    case Cast(operand, ty, brackets) => CastTo(db, ty, brackets, Eval(db, operand))
    case Not(operand) => FromTri(db, Not3(Truth(db, Eval(db, operand))))
    case Binary(op, left, right) =>
      FromTri(db, match op
        case Or => Or3(Truth(db, Eval(db, left)), Truth(db, Eval(db, right)))
        case And => And3(Truth(db, Eval(db, left)), Truth(db, Eval(db, right)))
        case _ =>
          if right.AnyOf? then CompareAny(db, op, Eval(db, left), Eval(db, right.operand))
          else Compare(db, op, Eval(db, left), Eval(db, right)))
    case IsNull(operand, negated) => FromTri(db, Known(Eval(db, operand).Null? != negated))
    case In(operand, items) => FromTri(db, InList(db, Eval(db, operand), EvalAll(db, items)))
    case AnyOf(_) => Null
  }

  function EvalAll(db: Db, items: seq<Src>): (r: seq<Value>)
    ensures |r| == |items|
    ensures forall i :: 0 <= i < |items| ==> r[i] == Eval(db, items[i])
    decreases items
  {
    if items == [] then [] else [Eval(db, items[0])] + EvalAll(db, items[1..])
  }

  function SymbolOp(head: string): Op
    requires head in SYMBOLS
  {
    if head == "=" then Eq else if head == "!=" then Ne(false) else if head == "<" then Lt
    else if head == ">" then Gt else if head == "<=" then Le else Ge
  }

  predicate IsAny(t: Term) { t.Node? && t.head == "any" && |t.args| == 1 }

  function EvalTerm(db: Db, t: Term): Value
    decreases t
  {
    match t
    case Word(text) => WordValue(db, text)
    case Quoted(content) => Str(content)
    case Node(head, args) =>
      if head in SYMBOLS && |args| == 2 && IsAny(args[1]) then
        FromTri(db, CompareAny(db, SymbolOp(head), EvalTerm(db, args[0]), EvalTerm(db, args[1].args[0])))
      else Apply(db, head, EvalTerms(db, args))
  }

  function EvalTerms(db: Db, args: seq<Term>): (r: seq<Value>)
    ensures |r| == |args|
    ensures forall i :: 0 <= i < |args| ==> r[i] == EvalTerm(db, args[i])
    decreases args
  {
    if args == [] then [] else [EvalTerm(db, args[0])] + EvalTerms(db, args[1..])
  }

  function Apply(db: Db, head: string, vs: seq<Value>): Value {
    if head == "array" then List(vs)
    else if head == "not" && |vs| == 1 then FromTri(db, Not3(Truth(db, vs[0])))
    else if head == "and" && |vs| == 2 then FromTri(db, And3(Truth(db, vs[0]), Truth(db, vs[1])))
    else if head == "or" && |vs| == 2 then FromTri(db, Or3(Truth(db, vs[0]), Truth(db, vs[1])))
    else if head == "isnull" && |vs| == 2 then FromTri(db, Known(vs[0].Null? != Truth(db, vs[1]).True?))
    else if head == "in" && |vs| > 0 then FromTri(db, InList(db, vs[0], vs[1..]))
    else if head in SYMBOLS && |vs| == 2 then FromTri(db, Compare(db, SymbolOp(head), vs[0], vs[1]))
    else db.call(head, vs)
  }

  // ----- types -----

  datatype Ty = TNull | TInt | TNum | TBool | TStr | TList(item: Ty) | TAny

  datatype Types = Types(column: string -> Ty, call: string -> Ty)

  ghost predicate Conforms(db: Db, ty: Ty, v: Value)
    decreases ty
  {
    match ty
    case TAny => true
    case TNull => v.Null?
    case TInt => v.Null? || (v.Num? && IsWhole(v.n))
    case TNum => v.Null? || v.Num?
    case TBool => v.Null? || v == FromTri(db, True) || v == FromTri(db, False)
    case TStr => v.Null? || v.Str?
    case TList(item) => v.Null? || (v.List? && forall i :: 0 <= i < |v.items| ==> Conforms(db, item, v.items[i]))
  }

  function CastTy(ty: CastType): Ty {
    if IsIntegral(ty) then TInt else if ty.BooleanType? then TBool else TStr
  }

  function TypeOf(types: Types, e: Src): Ty
    decreases e
  {
    match e
    case Column(name) =>
      if name == "null" then TNull else if name == "true" || name == "false" then TBool else types.column(name)
    case Number(text) => if IsInteger(text) then TInt else TNum
    case Literal(_) => TStr
    case Group(inner) => TypeOf(types, inner)
    case Array(items) => TList(ItemType(types, items))
    case Call(name, _) => types.call(name)
    case Cast(_, ty, brackets) => if brackets then TList(CastTy(ty)) else CastTy(ty)
    case AnyOf(_) => TAny
    case _ => TBool
  }

  /** The common type of the items of an array. */
  function ItemType(types: Types, items: seq<Src>): Ty
    decreases items
  {
    if items == [] then TAny
    else if |items| == 1 || TypeOf(types, items[0]) == ItemType(types, items[1..]) then TypeOf(types, items[0])
    else TAny
  }

  function StripLiteral(e: Src): Option<string>
    decreases e
  {
    match e
    case Literal(content) => Some(content)
    case Group(inner) => StripLiteral(inner)
    case Cast(operand, ty, brackets) => if CastTy(ty) == TStr && !brackets then StripLiteral(operand) else None
    case _ => None
  }

  /** The cast keeps its operand's type, or turns a quoted integer into that integer. */
  predicate CastPreserves(types: Types, ty: CastType, brackets: bool, operand: Src) {
    var t := TypeOf(types, operand);
    || t == TNull
    || t == (if brackets then TList(CastTy(ty)) else CastTy(ty))
    || (!brackets && IsIntegral(ty) && StripLiteral(operand).Some? && ParseInt64(StripLiteral(operand).value).Some?)
  }

  predicate CastsPreserve(types: Types, e: Src)
    decreases e
  {
    match e
    case Group(inner) => CastsPreserve(types, inner)
    case Array(items) => AllCastsPreserve(types, items)
    case Call(_, args) => AllCastsPreserve(types, args)
    case Cast(operand, ty, brackets) => CastPreserves(types, ty, brackets, operand) && CastsPreserve(types, operand)
    case Not(operand) => CastsPreserve(types, operand)
    case Binary(_, left, right) => CastsPreserve(types, left) && CastsPreserve(types, right)
    case IsNull(operand, _) => CastsPreserve(types, operand)
    case In(operand, items) => CastsPreserve(types, operand) && AllCastsPreserve(types, items)
    case AnyOf(operand) => CastsPreserve(types, operand)
    case _ => true
  }

  predicate AllCastsPreserve(types: Types, items: seq<Src>)
    decreases items
  {
    items == [] || (CastsPreserve(types, items[0]) && AllCastsPreserve(types, items[1..]))
  }

  /** No ANY anywhere: MySQL has neither arrays nor ANY over them. */
  predicate AnyFree(e: Src)
    decreases e
  {
    match e
    case Group(inner) => AnyFree(inner)
    case Array(items) => AllAnyFree(items)
    case Call(_, args) => AllAnyFree(args)
    case Cast(operand, _, _) => AnyFree(operand)
    case Not(operand) => AnyFree(operand)
    case Binary(_, left, right) => AnyFree(left) && AnyFree(right)
    case IsNull(operand, _) => AnyFree(operand)
    case In(operand, items) => AnyFree(operand) && AllAnyFree(items)
    case AnyOf(_) => false
    case _ => true
  }

  predicate AllAnyFree(items: seq<Src>)
    decreases items
  {
    items == [] || (AnyFree(items[0]) && AllAnyFree(items[1..]))
  }

  /** The accepted expression subset: one printing grammar, type-preserving casts, no ANY in MySQL. */
  predicate Contract(mysql: bool, types: Types, e: Src) {
    WellFormed(e) && CastsPreserve(types, e) && (mysql ==> AnyFree(e))
  }

  /** The row's values have the declared types. */
  ghost predicate Models(db: Db, types: Types) {
    && (forall name :: Conforms(db, types.column(name), db.column(name)))
    && (forall name, args :: Conforms(db, types.call(name), db.call(name, args)))
  }
}
