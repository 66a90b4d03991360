/**
 * A canonical string is its own canonical string: tokenizing and parsing it again, in the
 * same mode, changes nothing.
 */
module FixedPoints {
  import opened Outcomes
  import opened Text
  import opened Tokenizer
  import opened ExpressionParser
  import opened Expressions
  import opened CanonicalStrings
  import opened ParsePrint
  import opened MysqlText

  /** The operand of every NOT is already rewritten for its truth position. */
  predicate Settled(mysql: bool, t: Term)
    decreases t
  {
    t.Node? ==>
      && (t.head == "not" && |t.args| == 1 ==> Conditioned(mysql, t.args[0]) == t.args[0])
      && AllSettled(mysql, t.args)
  }

  predicate AllSettled(mysql: bool, args: seq<Term>)
    decreases args
  {
    args == [] || (Settled(mysql, args[0]) && AllSettled(mysql, args[1..]))
  }

  lemma PairSettled(mysql: bool, a: Term, b: Term)
    requires Settled(mysql, a) && Settled(mysql, b)
    ensures AllSettled(mysql, [a, b])
  {}

  lemma {:induction false} ConditionedSettled(mysql: bool, t: Term)
    requires Settled(mysql, t)
    ensures Settled(mysql, Conditioned(mysql, t))
    decreases t
  {
    if t.Node? && |t.args| == 2 {
      var a, b := t.args[0], t.args[1];
      assert t.args == [a, b] && AllSettled(mysql, [b]);
      ConditionedSettled(mysql, a);
      ConditionedSettled(mysql, b);
      NotSettled(mysql, a);
      NotSettled(mysql, b);
    }
  }

  lemma {:induction false} NotSettled(mysql: bool, t: Term)
    requires Settled(mysql, Conditioned(mysql, t))
    ensures Settled(mysql, Node("not", [Conditioned(mysql, t)]))
  {
    ConditionedIdempotent(mysql, t);
    assert [Conditioned(mysql, t)][1..] == [];
  }

  lemma {:induction false} NormalizeSettled(mysql: bool, e: Src)
    requires WellFormed(e) || WellFormedOperand(e)
    ensures Settled(mysql, Normalize(mysql, e))
    decreases e
  {
    match e {
      case Group(inner) => NormalizeSettled(mysql, inner);
      case Array(items) => NormalizeAllSettled(mysql, items);
      case Call(_, args) => NormalizeAllSettled(mysql, args);
      case Cast(operand, _, _) => NormalizeSettled(mysql, operand);
      case Not(operand) =>
        NormalizeSettled(mysql, operand);
        ConditionedSettled(mysql, Normalize(mysql, operand));
        NotSettled(mysql, Normalize(mysql, operand));
      case Binary(op, left, right) =>
        NormalizeSettled(mysql, left);
        NormalizeSettled(mysql, right);
        BinarySettled(mysql, op, Normalize(mysql, left), Normalize(mysql, right));
      case IsNull(operand, negated) =>
        NormalizeSettled(mysql, operand);
        PairSettled(mysql, Normalize(mysql, operand), Word(BoolText(negated)));
      case In(operand, items) =>
        NormalizeSettled(mysql, operand);
        NormalizeAllSettled(mysql, items);
        assert ([Normalize(mysql, operand)] + NormalizeAll(mysql, items))[1..] == NormalizeAll(mysql, items);
      case AnyOf(operand) =>
        NormalizeSettled(mysql, operand);
        assert [Normalize(mysql, operand)][1..] == [];
      case _ =>
    }
  }

  lemma BinarySettled(mysql: bool, op: Op, l: Term, r: Term)
    requires Settled(mysql, l) && Settled(mysql, r)
    ensures Settled(mysql, NormalizeBinary(mysql, op, l, r))
  {
    if op.Eq? && IsAnyOfArray(r) {
      var items := r.args[0].args;
      assert Settled(mysql, r.args[0]);
      assert ([l] + items)[1..] == items;
    } else {
      ConditionedSettled(mysql, l);
      ConditionedSettled(mysql, r);
      PairSettled(mysql, l, r);
      PairSettled(mysql, Conditioned(mysql, l), Conditioned(mysql, r));
    }
  }

  lemma {:induction false} NormalizeAllSettled(mysql: bool, items: seq<Src>)
    requires AllWellFormed(items)
    ensures AllSettled(mysql, NormalizeAll(mysql, items))
    decreases items
  {
    if items != [] {
      NormalizeSettled(mysql, items[0]);
      NormalizeAllSettled(mysql, items[1..]);
      assert NormalizeAll(mysql, items)[1..] == NormalizeAll(mysql, items[1..]);
    }
  }

  // ----- parsing the tokens of a term -----

  lemma WholeStep(mysql: bool, minimum: nat, tokens: seq<string>, value: string, rest: seq<string>)
    requires tokens != [] && tokens[0] != "not" && ClosesTokens(rest)
    requires Primary(mysql, tokens) == Parsed(value, rest)
    ensures Parse(mysql, minimum, tokens) == Parsed(value, rest)
  {}

  lemma {:induction false} ReparseAt(mysql: bool, minimum: nat, t: Term, rest: seq<string>)
    requires CanonicalTerm(t) && Settled(mysql, t) && ClosesTokens(rest)
    ensures Parse(mysql, minimum, TermTokens(t) + rest) == Parsed(Show(t), rest)
    decreases t, 1
  {
    match t {
      case Word(text) =>
        NameShape(text);
        NameAt(mysql, text, rest);
        WholeStep(mysql, minimum, [text] + rest, text, rest);
      case Quoted(content) =>
        LiteralAt(mysql, content, rest);
        assert Quote(content)[0] == '\'';
        WholeStep(mysql, minimum, [Quote(content)] + rest, Quote(content), rest);
      case Node(head, args) =>
        if head == "not" {
          assert args == [args[0]];
          ReparseNot(mysql, args[0], rest);
          NotTokens(args[0], rest);
          StopStep(mysql, minimum, Show(t), rest);
        } else {
          ReparseCall(mysql, head, args, rest);
          WholeStep(mysql, minimum, TermTokens(t) + rest, Show(t), rest);
        }
    }
  }

  lemma ReparseCall(mysql: bool, head: string, args: seq<Term>, rest: seq<string>)
    requires CanonicalTerm(Node(head, args)) && AllSettled(mysql, args) && ClosesTokens(rest)
    ensures Primary(mysql, TermTokens(Node(head, args)) + rest) == Parsed(Show(Node(head, args)), rest)
    decreases args, 2
  {
    HeadChars(head);
    ReparseArgs(mysql, args, rest);
    CallStep(mysql, head, ArgTokens(args) + ([")"] + rest));
    Reassociate([head, "("], ArgTokens(args), [")"], rest);
  }

  lemma NotTokens(a: Term, rest: seq<string>)
    ensures TermTokens(Node("not", [a])) + rest == ["not", "("] + (TermTokens(a) + ([")"] + rest))
  {}

  lemma ReparseNot(mysql: bool, a: Term, rest: seq<string>)
    requires CanonicalTerm(a) && Settled(mysql, a) && Conditioned(mysql, a) == a && ClosesTokens(rest)
    ensures Atom(mysql, ["not", "("] + (TermTokens(a) + ([")"] + rest))) == Parsed(Show(Node("not", [a])), rest)
    decreases a, 2
  {
    var close := [")"] + rest;
    var inner := TermTokens(a) + close;
    ReparseAt(mysql, 0, a, close);
    GroupStep(mysql, inner, Show(a), rest);
    var tail := ["("] + inner;
    assert Atom(mysql, tail) == Parsed(Show(a), rest);
    StopStep(mysql, 3, Show(a), rest);
    ConditionShow(mysql, a);
    ShowNot(a);
    NotStep(mysql, tail, Show(a), Show(a), rest);
    assert ["not"] + tail == ["not", "("] + inner;
  }

  lemma {:induction false} ReparseArgs(mysql: bool, args: seq<Term>, rest: seq<string>)
    requires AllCanonical(args) && AllSettled(mysql, args)
    ensures List(mysql, ")", ArgTokens(args) + ([")"] + rest)) == Items(ShowAll(args), rest)
    decreases args, 1
  {
    var close := [")"] + rest;
    assert close[1..] == rest;
    if args == [] {
      assert [] + close == close;
    } else {
      ReparseItems(mysql, args, rest);
      FirstToken(args[0]);
      NotEmptyList(mysql, ")", ArgTokens(args) + close);
    }
  }

  lemma {:induction false} ReparseItems(mysql: bool, args: seq<Term>, rest: seq<string>)
    requires args != [] && AllCanonical(args) && AllSettled(mysql, args)
    ensures ListItems(mysql, ")", ArgTokens(args) + ([")"] + rest)) == Items(ShowAll(args), rest)
    decreases args, 0
  {
    var close := [")"] + rest;
    if |args| == 1 {
      ReparseAt(mysql, 0, args[0], close);
      LastItem(mysql, ")", ArgTokens(args) + close, Show(args[0]), rest);
    } else {
      var more := ArgTokens(args[1..]) + close;
      Reassociate(TermTokens(args[0]), [","], ArgTokens(args[1..]), close);
      ReparseAt(mysql, 0, args[0], [","] + more);
      ReparseItems(mysql, args[1..], rest);
      NextItem(mysql, ")", ArgTokens(args) + close, Show(args[0]), more, ShowAll(args[1..]), rest);
    }
  }

  /** The canonical string of an expression's term is its own. */
  lemma CanonicalTermIsFixed(mysql: bool, e: Src)
    requires WellFormed(e)
    ensures var t := Conditioned(mysql, Normalize(mysql, e));
      CanonicalTerm(t) && Canonical(mysql, Show(t)) == Ok(Show(t))
  {
    var n := Normalize(mysql, e);
    var t := Conditioned(mysql, n);
    NormalizeCanonical(mysql, e);
    ConditionShow(mysql, n);
    NormalizeSettled(mysql, e);
    ConditionedSettled(mysql, n);
    ConditionedIdempotent(mysql, n);
    LexCanonical(t);
    assert TermTokens(t) + [] == TermTokens(t);
    ReparseAt(mysql, 0, t, []);
    ConditionShow(mysql, t);
  }

  /** The canonical string of a printing is a fixed point of the same mode. */
  lemma CanonicalIsFixed(mysql: bool, sql: string, e: Src)
    requires WellFormed(e) && Lex(sql) == Ok(Print(e))
    ensures Canonical(mysql, sql).Ok?
    ensures Canonical(mysql, Canonical(mysql, sql).value) == Canonical(mysql, sql)
  {
    CanonicalOfPrint(mysql, e);
    CanonicalTermIsFixed(mysql, e);
  }

  /** A literal alone is canonical. */
  lemma QuotedCanonical(content: string)
    ensures Canonical(true, Quote(content)) == Ok(Quote(content))
  {
    LexCanonical(Quoted(content));
    CanonicalOfPrint(true, Literal(content));
  }

  /**
   * The literal decoding that MySQL texts go through first is not part of the fixed point:
   * a canonical literal holding an escape letter after a backslash is decoded a second time.
   */
  lemma EscapesAreDecodedAgain(c: char)
    requires EscapeValue(c).Some? && c != '\''
    ensures var text := Quote(['\\', c]);
      && Canonical(true, text) == Ok(text)
      && MysqlCanonical(text) == Ok(Quote([EscapeValue(c).value]))
      && Quote([EscapeValue(c).value]) != text
  {
    var d := EscapeValue(c).value;
    ShortQuotes('\\', c, d);
    QuotedCanonical(['\\', c]);
    QuotedCanonical([d]);
    var body := ['\\', c, '\''];
    EscapedBody(c);
    assert Quote(['\\', c])[1..] == body;
    assert Literals(Quote(['\\', c])) == Ok(Quote([d]) + "");
    assert Quote([d]) + "" == Quote([d]);
  }

  lemma ShortQuotes(a: char, b: char, d: char)
    requires a != '\'' && b != '\'' && d != '\''
    ensures Quote([a, b]) == ['\'', a, b, '\''] && Quote([d]) == ['\'', d, '\'']
  {
    DoubledPlain([a, b]);
    DoubledPlain([d]);
  }

  lemma EscapedBody(c: char)
    requires EscapeValue(c).Some?
    ensures LiteralBody(['\\', c, '\'']) == Body([EscapeValue(c).value], "")
  {}
}
