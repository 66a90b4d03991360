/**
 * The rewriting keeps the three-valued truth of every expression, so two expressions with
 * one canonical string are true, false and unknown on the same rows.
 */
module ExpressionMeaning {
  import opened Outcomes
  import opened Text
  import opened Decimal
  import opened Tokenizer
  import opened ExpressionParser
  import opened Expressions
  import opened CanonicalStrings
  import opened ParsePrint
  import opened ExpressionSemantics

  // ----- types -----

  lemma CastConforms(db: Db, ty: CastType, brackets: bool, v: Value)
    ensures Conforms(db, if brackets then TList(CastTy(ty)) else CastTy(ty), CastTo(db, ty, brackets, v))
  {}

  /** Every value has the type the expression announces. */
  lemma {:induction false} TypeSound(db: Db, types: Types, e: Src)
    requires Models(db, types) && (WellFormed(e) || WellFormedOperand(e))
    ensures Conforms(db, TypeOf(types, e), Eval(db, e))
    decreases e
  {
    match e {
      case Group(inner) => TypeSound(db, types, inner);
      case Array(items) => ItemsSound(db, types, items);
      case Cast(operand, ty, brackets) => CastConforms(db, ty, brackets, Eval(db, operand));
      case Column(name) => NameNotNumeral(name);
      case Number(text) => NumberSound(db, text);
      case _ =>
    }
  }

  lemma NameNotNumeral(name: string)
    requires IsName(name)
    ensures !IsNumeral(name)
  {
    if IsNumeral(name) {
      NumeralShape(name);
    }
  }

  /** The value of an integer numeral is a whole number. */
  lemma IntegerValue(w: string)
    requires IsInteger(w)
    ensures IsNumeral(w)
    ensures NumeralValue(w) == if StartsWith(w, '-') then -(ValueOf(Unsigned(w)) as real) else ValueOf(Unsigned(w)) as real
  {
    IntegerIsNumeral(w);
    assert Unsigned(w)[..|Unsigned(w)|] == Unsigned(w);
  }

  lemma WholeOf(n: int)
    ensures IsWhole(n as real)
  {}

  lemma NumberSound(db: Db, text: string)
    requires IsNumeral(text)
    ensures Conforms(db, if IsInteger(text) then TInt else TNum, WordValue(db, text))
  {
    if IsInteger(text) {
      IntegerValue(text);
      WholeOf(if StartsWith(text, '-') then -(ValueOf(Unsigned(text)) as int) else ValueOf(Unsigned(text)));
    }
  }

  lemma {:induction false} ItemsSound(db: Db, types: Types, items: seq<Src>)
    requires Models(db, types) && AllWellFormed(items)
    ensures forall i :: 0 <= i < |items| ==> Conforms(db, ItemType(types, items), Eval(db, items[i]))
    decreases items
  {
    if items != [] {
      TypeSound(db, types, items[0]);
      ItemsSound(db, types, items[1..]);
      forall i | 0 < i < |items|
        ensures Conforms(db, ItemType(types, items), Eval(db, items[i]))
      {
        assert items[i] == items[1..][i - 1];
      }
    }
  }

  lemma CastIdentity(db: Db, ty: CastType, brackets: bool, v: Value)
    requires v.Null? || Conforms(db, if brackets then TList(CastTy(ty)) else CastTy(ty), v)
    ensures CastTo(db, ty, brackets, v) == v
  {}

  // ----- literals under integer casts -----

  lemma NumeralIsPlain(c: string)
    requires ParseInt64(c).Some?
    ensures Doubled(c) == c
  {
    assert forall i :: 1 <= i < |c| ==> c[i] == c[1..][i - 1];
    assert forall i :: 0 <= i < |c| ==> IsDigit(c[i]) || c[i] == '-' || c[i] == '+';
    DoubledPlain(c);
  }

  lemma IntegerValueFormat(db: Db, n: int)
    ensures WordValue(db, FormatInt(n)) == Num(n as real)
  {
    FormatIntIsInteger(n);
    IntegerValue(FormatInt(n));
    if n < 0 {
      assert FormatInt(n)[1..] == Format(-n);
      ValueFormat(-n);
    } else {
      assert IsDigit(Format(n)[0]);
      ValueFormat(n);
    }
  }

  /** A tree that is rewritten to a quoted literal is that literal, in groups and text casts. */
  lemma {:induction false} QuotedIsLiteral(mysql: bool, types: Types, e: Src)
    requires WellFormed(e) && CastsPreserve(types, e) && Normalize(mysql, e).Quoted?
    ensures TypeOf(types, e) == TStr && StripLiteral(e) == Some(Normalize(mysql, e).content)
    decreases e
  {
    match e {
      case Literal(_) =>
      case Group(inner) => QuotedIsLiteral(mysql, types, inner);
      case Cast(operand, ty, brackets) =>
        QuotedIsLiteral(mysql, types, operand);
        if IsIntegral(ty) {
          NumeralIsPlain(StripLiteral(operand).value);
        }
    }
  }

  lemma {:induction false} LiteralIsQuoted(mysql: bool, types: Types, e: Src)
    requires WellFormed(e) && CastsPreserve(types, e) && StripLiteral(e).Some?
    ensures Normalize(mysql, e) == Quoted(StripLiteral(e).value)
    decreases e
  {
    match e {
      case Literal(_) =>
      case Group(inner) => LiteralIsQuoted(mysql, types, inner);
      case Cast(operand, ty, _) => LiteralIsQuoted(mysql, types, operand);
    }
  }

  /** A cast operand that is rewritten to a literal. */
  lemma LiteralCastMeaning(db: Db, types: Types, ty: CastType, brackets: bool, operand: Src)
    requires Models(db, types) && WellFormed(operand) && CastsPreserve(types, operand)
    requires CastPreserves(types, ty, brackets, operand) && Normalize(db.mysql, operand).Quoted?
    ensures EvalTerm(db, NormalizeCast(ty, Normalize(db.mysql, operand)))
         == CastTo(db, ty, brackets, Str(Normalize(db.mysql, operand).content))
  {
    var content := Normalize(db.mysql, operand).content;
    QuotedIsLiteral(db.mysql, types, operand);
    if IsIntegral(ty) {
      NumeralIsPlain(content);
      IntegerValueFormat(db, ParseInt64(content).value);
    } else {
      CastIdentity(db, ty, brackets, Str(content));
    }
  }

  lemma CastMeaning(db: Db, types: Types, ty: CastType, brackets: bool, operand: Src)
    requires Models(db, types) && WellFormed(operand) && CastsPreserve(types, operand)
    requires CastPreserves(types, ty, brackets, operand)
    requires EvalTerm(db, Normalize(db.mysql, operand)) == Eval(db, operand)
    ensures EvalTerm(db, NormalizeCast(ty, Normalize(db.mysql, operand))) == CastTo(db, ty, brackets, Eval(db, operand))
  {
    if Normalize(db.mysql, operand).Quoted? {
      LiteralCastMeaning(db, types, ty, brackets, operand);
    } else {
      assert StripLiteral(operand).None? by {
        if StripLiteral(operand).Some? {
          LiteralIsQuoted(db.mysql, types, operand);
        }
      }
      TypeSound(db, types, operand);
      CastIdentity(db, ty, brackets, Eval(db, operand));
    }
  }

  // ----- ANY over an array is IN -----

  lemma {:induction false} AnyIsIn(db: Db, a: Value, items: seq<Value>)
    ensures CompareAny(db, Eq, a, List(items)) == InList(db, a, items)
  {
    if items != [] {
      AnyIsIn(db, a, items[1..]);
      var rest := items[1..];
      assert forall i :: 0 <= i < |rest| ==> rest[i] == items[i + 1];
      assert forall i :: 0 < i < |items| ==> items[i] == rest[i - 1];
    }
  }

  // ----- truth positions -----

  lemma TruthFromTri(db: Db, t: Tri)
    ensures Truth(db, FromTri(db, t)) == t
  {}

  /** No ANY anywhere in a term. */
  predicate AnyFreeTerm(t: Term)
    decreases t
  {
    t.Node? ==> t.head != "any" && AllAnyFreeTerms(t.args)
  }

  predicate AllAnyFreeTerms(args: seq<Term>)
    decreases args
  {
    args == [] || (AnyFreeTerm(args[0]) && AllAnyFreeTerms(args[1..]))
  }

  /** A comparison with zero is the negation of a truth test. */
  lemma ZeroIsFalse(db: Db, v: Value)
    ensures Compare(db, Eq, Num(0.0), v) == Not3(Truth(db, v)) == Compare(db, Eq, v, Num(0.0))
    ensures Compare(db, Ne(false), Num(0.0), v) == Truth(db, v) == Compare(db, Ne(false), v, Num(0.0))
  {}

  lemma PairValue(db: Db, head: string, a: Term, b: Term)
    requires head in SYMBOLS && !IsAny(b)
    ensures EvalTerm(db, Node(head, [a, b])) == FromTri(db, Compare(db, SymbolOp(head), EvalTerm(db, a), EvalTerm(db, b)))
  {}

  lemma ZeroValue(db: Db)
    ensures WordValue(db, "0") == Num(0.0)
  {
    assert IsInteger("0") && ValueOf("0") == 0;
    IntegerValue("0");
  }

  lemma NotValue(db: Db, t: Term)
    ensures EvalTerm(db, Node("not", [t])) == FromTri(db, Not3(Truth(db, EvalTerm(db, t))))
  {}

  lemma LogicalValue(db: Db, op: Op, a: Term, b: Term)
    requires IsLogical(op)
    ensures EvalTerm(db, Node(OpHead(op), [a, b])) ==
      FromTri(db, if op.Or? then Or3(Truth(db, EvalTerm(db, a)), Truth(db, EvalTerm(db, b)))
                  else And3(Truth(db, EvalTerm(db, a)), Truth(db, EvalTerm(db, b))))
  {}

  /** Rewriting a term in a truth position keeps its truth. */
  lemma {:induction false} ConditionedTruth(db: Db, t: Term)
    requires db.mysql ==> AnyFreeTerm(t)
    ensures Truth(db, EvalTerm(db, Conditioned(db.mysql, t))) == Truth(db, EvalTerm(db, t))
    decreases t
  {
    if db.mysql && t.Node? && |t.args| == 2 && t.head in {"=", "!="} && (IsZero(t.args[0]) || IsZero(t.args[1])) {
      var a, b := t.args[0], t.args[1];
      assert t.args == [a, b] && AllAnyFreeTerms([b]) && AnyFreeTerm(b);
      PairValue(db, t.head, a, b);
      var x := if IsZero(a) then b else a;
      ConditionedTruth(db, x);
      ZeroIsFalse(db, EvalTerm(db, x));
      ZeroValue(db);
      NotValue(db, Conditioned(db.mysql, x));
      TruthFromTri(db, Not3(Truth(db, EvalTerm(db, x))));
    }
  }

  lemma {:induction false} NormalizeAnyFree(mysql: bool, e: Src)
    requires WellFormed(e) && AnyFree(e)
    ensures AnyFreeTerm(Normalize(mysql, e))
    decreases e
  {
    match e {
      case Group(inner) => NormalizeAnyFree(mysql, inner);
      case Array(items) => NormalizeAllAnyFree(mysql, items);
      case Call(_, args) => NormalizeAllAnyFree(mysql, args);
      case Cast(operand, _, _) => NormalizeAnyFree(mysql, operand);
      case Not(operand) =>
        NormalizeAnyFree(mysql, operand);
        ConditionedAnyFree(mysql, Normalize(mysql, operand));
      case Binary(op, left, right) =>
        NormalizeAnyFree(mysql, left);
        NormalizeAnyFree(mysql, right);
        var l, r := Normalize(mysql, left), Normalize(mysql, right);
        ConditionedAnyFree(mysql, l);
        ConditionedAnyFree(mysql, r);
        PairAnyFree(l, r);
        PairAnyFree(Conditioned(mysql, l), Conditioned(mysql, r));
      case IsNull(operand, negated) =>
        NormalizeAnyFree(mysql, operand);
        PairAnyFree(Normalize(mysql, operand), Word(BoolText(negated)));
      case In(operand, items) =>
        NormalizeAnyFree(mysql, operand);
        NormalizeAllAnyFree(mysql, items);
        assert ([Normalize(mysql, operand)] + NormalizeAll(mysql, items))[1..] == NormalizeAll(mysql, items);
      case _ =>
    }
  }

  lemma PairAnyFree(a: Term, b: Term)
    requires AnyFreeTerm(a) && AnyFreeTerm(b)
    ensures AllAnyFreeTerms([a, b])
  {}

  lemma {:induction false} ConditionedAnyFree(mysql: bool, t: Term)
    requires AnyFreeTerm(t)
    ensures AnyFreeTerm(Conditioned(mysql, t))
    decreases t
  {
    if t.Node? && |t.args| == 2 {
      var a, b := t.args[0], t.args[1];
      assert t.args == [a, b] && AllAnyFreeTerms([b]);
      ConditionedAnyFree(mysql, a);
      ConditionedAnyFree(mysql, b);
    }
  }

  lemma {:induction false} NormalizeAllAnyFree(mysql: bool, items: seq<Src>)
    requires AllWellFormed(items) && AllAnyFree(items)
    ensures AllAnyFreeTerms(NormalizeAll(mysql, items))
    decreases items
  {
    if items != [] {
      NormalizeAnyFree(mysql, items[0]);
      NormalizeAllAnyFree(mysql, items[1..]);
      assert NormalizeAll(mysql, items)[1..] == NormalizeAll(mysql, items[1..]);
    }
  }

  lemma OperandTruth(db: Db, e: Src)
    requires WellFormed(e) && (db.mysql ==> AnyFree(e))
    requires EvalTerm(db, Normalize(db.mysql, e)) == Eval(db, e)
    ensures Truth(db, EvalTerm(db, Conditioned(db.mysql, Normalize(db.mysql, e)))) == Truth(db, Eval(db, e))
  {
    if db.mysql {
      NormalizeAnyFree(db.mysql, e);
    }
    ConditionedTruth(db, Normalize(db.mysql, e));
  }

  // ----- the rewriting keeps values -----

  lemma {:induction false} NormalizeMeaning(db: Db, types: Types, e: Src)
    requires Models(db, types) && Contract(db.mysql, types, e)
    ensures EvalTerm(db, Normalize(db.mysql, e)) == Eval(db, e)
    decreases e, 1
  {
    match e {
      case Column(_) =>
      case Number(_) =>
      case Literal(_) =>
      case Group(inner) => NormalizeMeaning(db, types, inner);
      case Array(items) => AllMeaning(db, types, items);
      case Call(name, args) =>
        AllMeaning(db, types, args);
        CallValue(db, name, NormalizeAll(db.mysql, args));
      case Cast(operand, ty, brackets) =>
        NormalizeMeaning(db, types, operand);
        CastMeaning(db, types, ty, brackets, operand);
      case Not(operand) =>
        NormalizeMeaning(db, types, operand);
        OperandTruth(db, operand);
        NotValue(db, Conditioned(db.mysql, Normalize(db.mysql, operand)));
      case Binary(op, left, right) => BinaryMeaning(db, types, e);
      case IsNull(operand, negated) =>
        NormalizeMeaning(db, types, operand);
        IsNullValue(db, Normalize(db.mysql, operand), negated);
      case In(operand, items) =>
        NormalizeMeaning(db, types, operand);
        AllMeaning(db, types, items);
        InValue(db, Normalize(db.mysql, operand), NormalizeAll(db.mysql, items));
    }
  }

  lemma CallValue(db: Db, name: string, args: seq<Term>)
    requires IsName(name)
    ensures EvalTerm(db, Node(name, args)) == db.call(name, EvalTerms(db, args))
  {}

  lemma IsNullValue(db: Db, t: Term, negated: bool)
    ensures EvalTerm(db, Node("isnull", [t, Word(BoolText(negated))]))
         == FromTri(db, Known(EvalTerm(db, t).Null? != negated))
  {}

  lemma InValue(db: Db, a: Term, items: seq<Term>)
    ensures EvalTerm(db, Node("in", [a] + items)) == FromTri(db, InList(db, EvalTerm(db, a), EvalTerms(db, items)))
  {
    var vs := EvalTerms(db, [a] + items);
    assert ([a] + items)[1..] == items;
    assert vs[1..] == EvalTerms(db, items);
  }

  lemma BinaryMeaning(db: Db, types: Types, e: Src)
    requires Models(db, types) && Contract(db.mysql, types, e) && e.Binary?
    ensures EvalTerm(db, Normalize(db.mysql, e)) == Eval(db, e)
    decreases e, 0
  {
    OperandContract(db.mysql, types, e);
    NormalizeMeaning(db, types, e.left);
    if e.right.AnyOf? {
      NormalizeMeaning(db, types, e.right.operand);
      AnyOfMeaning(db, e);
    } else {
      NormalizeMeaning(db, types, e.right);
      if IsLogical(e.op) {
        LogicalMeaning(db, e);
      } else {
        ComparisonMeaning(db, e);
      }
    }
  }

  lemma OperandContract(mysql: bool, types: Types, e: Src)
    requires e.Binary? && Contract(mysql, types, e)
    ensures Contract(mysql, types, e.left)
    ensures Contract(mysql, types, if e.right.AnyOf? then e.right.operand else e.right)
    ensures e.right.AnyOf? ==> !IsLogical(e.op)
  {
    match e {
      case Binary(op, left, right) =>
        if IsLogical(op) {
          assert WellFormed(right);
        } else {
          assert WellFormedOperand(right);
        }
        assert CastsPreserve(types, right) && (mysql ==> AnyFree(right));
    }
  }

  /** `<>` and `!=` are one operator, and every other is its own symbol. */
  lemma SymbolOps(op: Op)
    requires !IsLogical(op)
    ensures OpHead(op) in SYMBOLS && (SymbolOp(OpHead(op)) == op || (op.Ne? && SymbolOp(OpHead(op)).Ne?))
  {}

  lemma SameCompare(db: Db, a: Op, b: Op, x: Value, y: Value)
    requires a == b || (a.Ne? && b.Ne?)
    ensures Compare(db, a, x, y) == Compare(db, b, x, y)
  {}

  lemma ComparisonEval(db: Db, e: Src)
    requires e.Binary? && !IsLogical(e.op) && !e.right.AnyOf?
    ensures Eval(db, e) == FromTri(db, Compare(db, e.op, Eval(db, e.left), Eval(db, e.right)))
  {}

  lemma AnyEval(db: Db, e: Src)
    requires e.Binary? && !IsLogical(e.op) && e.right.AnyOf?
    ensures Eval(db, e) == FromTri(db, CompareAny(db, e.op, Eval(db, e.left), Eval(db, e.right.operand)))
  {}

  lemma AnyOfMeaning(db: Db, e: Src)
    requires e.Binary? && !IsLogical(e.op) && e.right.AnyOf?
    requires EvalTerm(db, Normalize(db.mysql, e.left)) == Eval(db, e.left)
    requires EvalTerm(db, Normalize(db.mysql, e.right.operand)) == Eval(db, e.right.operand)
    ensures EvalTerm(db, Normalize(db.mysql, e)) == Eval(db, e)
  {
    AnyEval(db, e);
    AnyMeaning(db, e.op, Normalize(db.mysql, e.left), Normalize(db.mysql, e.right.operand));
  }

  lemma ComparisonMeaning(db: Db, e: Src)
    requires e.Binary? && !IsLogical(e.op) && WellFormed(e) && !e.right.AnyOf?
    requires EvalTerm(db, Normalize(db.mysql, e.left)) == Eval(db, e.left)
    requires EvalTerm(db, Normalize(db.mysql, e.right)) == Eval(db, e.right)
    ensures EvalTerm(db, Normalize(db.mysql, e)) == Eval(db, e)
  {
    ComparisonEval(db, e);
    AnyItems(db.mysql, e.right);
    SymbolOps(e.op);
    SameCompare(db, e.op, SymbolOp(OpHead(e.op)), Eval(db, e.left), Eval(db, e.right));
    PairValue(db, OpHead(e.op), Normalize(db.mysql, e.left), Normalize(db.mysql, e.right));
  }

  lemma LogicalMeaning(db: Db, e: Src)
    requires e.Binary? && IsLogical(e.op) && WellFormed(e) && (db.mysql ==> AnyFree(e))
    requires EvalTerm(db, Normalize(db.mysql, e.left)) == Eval(db, e.left)
    requires EvalTerm(db, Normalize(db.mysql, e.right)) == Eval(db, e.right)
    ensures EvalTerm(db, Normalize(db.mysql, e)) == Eval(db, e)
  {
    OperandTruth(db, e.left);
    OperandTruth(db, e.right);
    LogicalValue(db, e.op, Conditioned(db.mysql, Normalize(db.mysql, e.left)), Conditioned(db.mysql, Normalize(db.mysql, e.right)));
  }

  lemma AnyMeaning(db: Db, op: Op, l: Term, a: Term)
    requires !IsLogical(op)
    ensures EvalTerm(db, NormalizeBinary(db.mysql, op, l, Node("any", [a])))
         == FromTri(db, CompareAny(db, op, EvalTerm(db, l), EvalTerm(db, a)))
  {
    var right := Node("any", [a]);
    if op.Eq? && IsAnyOfArray(right) {
      InValue(db, l, a.args);
      AnyIsIn(db, EvalTerm(db, l), EvalTerms(db, a.args));
    } else {
      assert [l, right][1] == right;
      assert CompareAny(db, SymbolOp(OpHead(op)), EvalTerm(db, l), EvalTerm(db, a)) == CompareAny(db, op, EvalTerm(db, l), EvalTerm(db, a)) by {
        SameOp(db, op, EvalTerm(db, l), EvalTerm(db, a));
      }
    }
  }

  /** `<>` and `!=` are one operator. */
  lemma SameOp(db: Db, op: Op, a: Value, v: Value)
    requires !IsLogical(op)
    ensures CompareAny(db, SymbolOp(OpHead(op)), a, v) == CompareAny(db, op, a, v)
  {}

  lemma {:induction false} AllMeaning(db: Db, types: Types, items: seq<Src>)
    requires Models(db, types) && AllWellFormed(items) && AllCastsPreserve(types, items)
    requires db.mysql ==> AllAnyFree(items)
    ensures EvalTerms(db, NormalizeAll(db.mysql, items)) == EvalAll(db, items)
    decreases items
  {
    if items != [] {
      NormalizeMeaning(db, types, items[0]);
      AllMeaning(db, types, items[1..]);
      assert NormalizeAll(db.mysql, items)[1..] == NormalizeAll(db.mysql, items[1..]);
    }
  }

  // ----- main results -----

  /** The term whose string is the canonical string of a printing has the printing's truth on every row. */
  lemma CanonicalKeepsTruth(db: Db, types: Types, sql: string, e: Src)
    requires Models(db, types) && Contract(db.mysql, types, e) && Lex(sql) == Ok(Print(e))
    ensures var t := Conditioned(db.mysql, Normalize(db.mysql, e));
      && Canonical(db.mysql, sql) == Ok(Show(t))
      && Truth(db, EvalTerm(db, t)) == Truth(db, Eval(db, e))
  {
    CanonicalOfPrint(db.mysql, e);
    NormalizeMeaning(db, types, e);
    OperandTruth(db, e);
  }

  /** Two texts with equal canonical strings are never semantically different. */
  lemma EqualCanonicalEqualTruth(mysql: bool, types: Types, sql1: string, e1: Src, sql2: string, e2: Src)
    requires Contract(mysql, types, e1) && Lex(sql1) == Ok(Print(e1))
    requires Contract(mysql, types, e2) && Lex(sql2) == Ok(Print(e2))
    requires Canonical(mysql, sql1) == Canonical(mysql, sql2)
    ensures forall db: Db :: db.mysql == mysql && Models(db, types) ==> Truth(db, Eval(db, e1)) == Truth(db, Eval(db, e2))
  {
    var t1, t2 := Conditioned(mysql, Normalize(mysql, e1)), Conditioned(mysql, Normalize(mysql, e2));
    NormalizeCanonical(mysql, e1);
    NormalizeCanonical(mysql, e2);
    ConditionShow(mysql, Normalize(mysql, e1));
    ConditionShow(mysql, Normalize(mysql, e2));
    CanonicalOfPrint(mysql, e1);
    CanonicalOfPrint(mysql, e2);
    ShowInjective(t1, t2);
    forall db: Db | db.mysql == mysql && Models(db, types)
      ensures Truth(db, Eval(db, e1)) == Truth(db, Eval(db, e2))
    {
      CanonicalKeepsTruth(db, types, sql1, e1);
      CanonicalKeepsTruth(db, types, sql2, e2);
    }
  }
}
