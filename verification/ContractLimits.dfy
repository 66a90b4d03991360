/**
 * Inputs outside the accepted subset for which the properties of the rewriting fail, with the exact
 * line between: a cast that converts, a function that is called like a rewritten operator, and
 * quoted names that read like canonical strings.
 */
module ContractLimits {
  import opened Outcomes
  import opened Text
  import opened Decimal
  import opened Tokenizer
  import opened ExpressionParser
  import opened Expressions
  import opened CanonicalStrings
  import opened ParsePrint
  import opened ExpressionSemantics
  import opened ExpressionMeaning
  import opened MysqlText
  import opened FixedPoints
  import opened MysqlFixedPoints
  import opened SliceSafety

  // ----- casts -----

  /** The type whose values a cast leaves as they are, apart from NULL. In MySQL truth values are whole numbers. */
  predicate KeepsScalar(mysql: bool, ty: CastType, t: Ty) {
    t == TNull || t == CastTy(ty) || (mysql && t == TBool && IsIntegral(ty))
  }

  predicate Keeps(mysql: bool, ty: CastType, brackets: bool, t: Ty) {
    if !brackets then KeepsScalar(mysql, ty, t)
    else t == TNull || (t.TList? && KeepsScalar(mysql, ty, t.item))
  }

  lemma KeptScalar(db: Db, ty: CastType, t: Ty, v: Value)
    requires KeepsScalar(db.mysql, ty, t) && Conforms(db, t, v)
    ensures CastScalar(db, ty, v) == v
  {
    WholeOf(0);
    WholeOf(1);
  }

  lemma KeptValue(db: Db, ty: CastType, brackets: bool, t: Ty, v: Value)
    requires Keeps(db.mysql, ty, brackets, t) && Conforms(db, t, v)
    ensures CastTo(db, ty, brackets, v) == v
  {
    if !brackets {
      KeptScalar(db, ty, t, v);
    } else if v.List? {
      forall i | 0 <= i < |v.items|
        ensures CastScalar(db, ty, v.items[i]) == v.items[i]
      {
        KeptScalar(db, ty, t.item, v.items[i]);
      }
      assert CastAll(db, ty, v.items) == v.items;
    }
  }

  /** A database with that dialect and those columns; every function says whether it was given that one value. */
  function Teller(mysql: bool, column: string -> Value, given: Value): Db {
    Db(mysql, column, (name: string, args: seq<Value>) => Bool(args == [given]),
       (a: string, b: string) => 0, (s: string) => 0.0, (x: real) => "", (x: real) => 0)
  }

  /** A value of the type that the cast changes. */
  function ChangedScalar(mysql: bool, ty: CastType, t: Ty): Value
    requires !KeepsScalar(mysql, ty, t)
  {
    match t
    case TAny => List([])
    case TList(_) => List([])
    case TInt => Num(5.0)
    case TNum => Num(2.5)
    case TBool => FromTri(Teller(mysql, (name: string) => Null, Null), True)
    case TStr => Str("x")
  }

  lemma ScalarChanges(db: Db, ty: CastType, t: Ty)
    requires !KeepsScalar(db.mysql, ty, t)
    ensures var v := ChangedScalar(db.mysql, ty, t); Conforms(db, t, v) && CastScalar(db, ty, v) != v
  {
    WholeOf(5);
    FractionChanges(db);
    assert ParseInt64("x").None?;
  }

  /** No integer is two and a half. */
  lemma FractionChanges(db: Db)
    ensures Rounded(db, 2.5) != 2.5
  {
    assert (2.5).Floor == 2;
  }

  function Changed(mysql: bool, ty: CastType, brackets: bool, t: Ty): Value
    requires !Keeps(mysql, ty, brackets, t)
  {
    if !brackets then ChangedScalar(mysql, ty, t)
    else match t
      case TList(item) => List([ChangedScalar(mysql, ty, item)])
      case TStr => Str("x")
      case TBool => FromTri(Teller(mysql, (name: string) => Null, Null), True)
      case _ => Num(5.0)
  }

  lemma ValueChanges(db: Db, ty: CastType, brackets: bool, t: Ty)
    requires !Keeps(db.mysql, ty, brackets, t)
    ensures var v := Changed(db.mysql, ty, brackets, t); Conforms(db, t, v) && CastTo(db, ty, brackets, v) != v
  {
    WholeOf(5);
    if !brackets {
      ScalarChanges(db, ty, t);
    } else if t.TList? {
      ScalarChanges(db, ty, t.item);
      var x := ChangedScalar(db.mysql, ty, t.item);
      assert CastAll(db, ty, [x])[0] != [x][0];
    }
  }

  function Bare(f: string, x: string): Src { Call(f, [Column(x)]) }

  function Converted(f: string, x: string, ty: CastType, brackets: bool): Src { Call(f, [Cast(Column(x), ty, brackets)]) }

  /** A column's value: no constant goes by that name. */
  predicate IsColumn(x: string) { IsName(x) && x != "null" && x != "true" && x != "false" }

  lemma OneArgument(e: Src)
    requires WellFormed(e)
    ensures AllWellFormed([e])
  {
    assert [e][1..] == [];
  }

  lemma SameCanonical(mysql: bool, f: string, x: string, ty: CastType, brackets: bool)
    requires IsName(f) && IsName(x)
    ensures CanonicalTokens(mysql, Print(Bare(f, x))) == CanonicalTokens(mysql, Print(Converted(f, x, ty, brackets)))
  {
    OneArgument(Column(x));
    OneArgument(Cast(Column(x), ty, brackets));
    CanonicalOfPrint(mysql, Bare(f, x));
    CanonicalOfPrint(mysql, Converted(f, x, ty, brackets));
    assert NormalizeAll(mysql, [Column(x)]) == NormalizeAll(mysql, [Cast(Column(x), ty, brackets)]);
  }

  lemma Values(db: Db, f: string, x: string, ty: CastType, brackets: bool)
    requires IsColumn(x)
    ensures Eval(db, Bare(f, x)) == db.call(f, [db.column(x)])
    ensures Eval(db, Converted(f, x, ty, brackets)) == db.call(f, [CastTo(db, ty, brackets, db.column(x))])
  {
    NameNotNumeral(x);
    assert EvalAll(db, [Column(x)]) == [db.column(x)];
    assert EvalAll(db, [Cast(Column(x), ty, brackets)]) == [CastTo(db, ty, brackets, db.column(x))];
  }

  /** On every row whose column has the type, both expressions have the same truth. */
  ghost predicate SameTruth(mysql: bool, f: string, x: string, ty: CastType, brackets: bool, t: Ty) {
    forall db: Db :: db.mysql == mysql && Conforms(db, t, db.column(x)) ==>
      Truth(db, Eval(db, Bare(f, x))) == Truth(db, Eval(db, Converted(f, x, ty, brackets)))
  }

  lemma KeptTruth(mysql: bool, f: string, x: string, ty: CastType, brackets: bool, t: Ty)
    requires IsColumn(x) && Keeps(mysql, ty, brackets, t)
    ensures SameTruth(mysql, f, x, ty, brackets, t)
  {
    forall db: Db | db.mysql == mysql && Conforms(db, t, db.column(x))
      ensures Truth(db, Eval(db, Bare(f, x))) == Truth(db, Eval(db, Converted(f, x, ty, brackets)))
    {
      Values(db, f, x, ty, brackets);
      KeptValue(db, ty, brackets, t, db.column(x));
    }
  }

  lemma ChangedTruth(mysql: bool, f: string, x: string, ty: CastType, brackets: bool, t: Ty)
    requires IsColumn(x) && !Keeps(mysql, ty, brackets, t)
    ensures !SameTruth(mysql, f, x, ty, brackets, t)
  {
    var v := Changed(mysql, ty, brackets, t);
    var db := Teller(mysql, (name: string) => v, v);
    ValueChanges(db, ty, brackets, t);
    Values(db, f, x, ty, brackets);
    assert [CastTo(db, ty, brackets, v)][0] != [v][0];
    assert Truth(db, Eval(db, Bare(f, x))) == True && Truth(db, Eval(db, Converted(f, x, ty, brackets))) == False;
  }

  /**
   * A function of a column and the same function of the column cast have one canonical string
   * whatever the cast; they have one truth exactly when the cast keeps every value of the column's type.
   */
  lemma DroppedCastExactly(mysql: bool, f: string, x: string, ty: CastType, brackets: bool, t: Ty)
    requires IsName(f) && IsColumn(x)
    ensures CanonicalTokens(mysql, Print(Bare(f, x))) == CanonicalTokens(mysql, Print(Converted(f, x, ty, brackets)))
    ensures SameTruth(mysql, f, x, ty, brackets, t) <==> Keeps(mysql, ty, brackets, t)
  {
    SameCanonical(mysql, f, x, ty, brackets);
    if Keeps(mysql, ty, brackets, t) {
      KeptTruth(mysql, f, x, ty, brackets, t);
    } else {
      ChangedTruth(mysql, f, x, ty, brackets, t);
    }
  }

  // ----- reserved function names -----

  /**
   * A function with the name of a rewritten test reads like the test, whatever it computes: written
   * as calls, the canonical string of any expression has that canonical string itself.
   */
  lemma IsNullCallCollides(mysql: bool, x: string)
    requires IsName(x)
    ensures Canonical(mysql, "isnull(" + x + ",false)") == CanonicalTokens(mysql, [x, "is", "null"])
  {
    var test := IsNull(Column(x), false);
    var t := Conditioned(mysql, Normalize(mysql, test));
    CanonicalOfPrint(mysql, test);
    CanonicalTermIsFixed(mysql, test);
    TestPrinted(x);
    TestShown(mysql, x);
    assert CanonicalTokens(mysql, Print(test)) == Ok(Show(t)) && Canonical(mysql, Show(t)) == Ok(Show(t));
  }

  lemma TestPrinted(x: string)
    ensures Print(IsNull(Column(x), false)) == [x, "is", "null"]
  {}

  lemma TestShown(mysql: bool, x: string)
    ensures Show(Conditioned(mysql, Normalize(mysql, IsNull(Column(x), false)))) == "isnull(" + x + ",false)"
  {
    var test := IsNull(Column(x), false);
    assert Conditioned(mysql, Normalize(mysql, test)) == Normalize(mysql, test);
    ShowIsNull(Word(x), false);
    assert "isnull(" + x + "," + "false" + ")" == "isnull(" + x + ",false)";
  }

  // ----- quoted names that read like canonical strings -----

  /** The tokens of the text are one name and nothing else, or the name and a cast. */
  lemma CutName(mysql: bool)
    ensures CanonicalTokens(true, ["=(0,"]) == Err(SliceOutOfRange)
    ensures CanonicalTokens(mysql, ["'", "::", "integer"]) == Err(SliceOutOfRange)
  {
    NameAlone("=(0,");
    ConditionFailsExactly("=(0,");
    assert Innermost("=(0,") == "=(0,";
    CastOfQuote(mysql);
  }

  lemma NameAlone(name: string)
    requires name != "(" && name != "array" && name != "not"
    ensures CanonicalTokens(true, [name]) == Condition(true, name)
  {
    LeafStep(true, name, []);
    assert [name] + [] == [name];
    assert Parse(true, 0, [name]) == Parsed(name, []);
  }

  lemma CastOfQuote(mysql: bool)
    ensures CanonicalTokens(mysql, ["'", "::", "integer"]) == Err(SliceOutOfRange)
  {
    var tokens, cast, ty := ["'", "::", "integer"], ["::", "integer"], ["integer"];
    LeafStep(mysql, "'", cast);
    assert tokens == ["'"] + cast && cast[1..] == ty;
    CastFailsExactly("integer", "'");
    assert AfterTypeName(ty) == Ok(ty[1..]);
    assert OneCast("'", ty) == Failed(SliceOutOfRange);
    assert Casts("'", cast) == Failed(SliceOutOfRange);
    assert Atom(mysql, tokens) == Failed(SliceOutOfRange);
  }

  lemma {:induction false} QuotedNameWidth(quote: char, name: string, s: string)
    requires quote !in name && !StartsWith(s, quote)
    ensures QuoteWidth(name + [quote] + s, quote) == Some(|name| + 1)
  {
    var text := name + [quote] + s;
    if name == [] {
      assert text == [quote] + s;
    } else {
      assert text[1..] == name[1..] + [quote] + s;
      QuotedNameWidth(quote, name[1..], s);
    }
  }

  /** A quoted name is the token of its lower-cased characters. */
  lemma QuotedNameAt(quote: char, name: string, s: string)
    requires (quote == '"' || quote == '`') && quote !in name && !StartsWith(s, quote)
    ensures Lex([quote] + name + [quote] + s) == Prepend([ToLower(name)], Lex(s))
  {
    var text := [quote] + name + [quote] + s;
    QuotedNameWidth(quote, name, s);
    assert text[1..] == name + [quote] + s && text[1..|name| + 1] == name && text[|name| + 2..] == s;
    assert First(text) == Token(ToLower(name), |name| + 2);
  }

  /** A back-quoted name in a MySQL text. */
  lemma QuotedNameSlicesOutOfRange()
    ensures MysqlCanonical(['`'] + "=(0," + ['`']) == Err(ParseFailure(SliceOutOfRange))
  {
    var name := "=(0,";
    var q := ['`'] + name + ['`'];
    OutsideKept(q, "");
    assert q + "" == q && [name] + [] == [name];
    QuotedNameAt('`', name, "");
    assert ToLower(name) == name;
    CutName(true);
  }

  /** A cast to integer, and a comment after it. */
  function CastText(): string { "::" + ("integer" + (" " + "--")) }

  lemma Regrouped(a: string, b: string, c: string, d: string, e: string)
    ensures a + (b + (c + d)) + e == a + (b + (c + (d + e)))
  {}

  /** The comment goes on to the end of the line, quote or not. */
  lemma CommentSkipped(rest: string)
    requires '\n' !in rest
    ensures Lex("--" + rest) == Ok([])
  {
    var s := "--" + rest;
    assert s[0] == '-' && s[1] == '-' && s[1..][0] == '-';
    WholeLine(s);
    assert First(s) == Skip(|s|) && s[|s|..] == [];
  }

  lemma {:induction false} WholeLine(s: string)
    requires '\n' !in s
    ensures LineWidth(s) == |s|
  {
    if s != [] {
      WholeLine(s[1..]);
    }
  }

  lemma SpaceSkipped(rest: string)
    ensures Lex(" " + rest) == Lex(rest)
  {
    assert (" " + rest)[1..] == rest && (" " + rest)[0] == ' ';
  }

  lemma LettersAreWord(w: string)
    requires w != [] && forall i :: 0 <= i < |w| ==> 'a' <= w[i] <= 'z'
    ensures IsWordToken(w)
  {
    assert ToLower(w) == w && w[0] != '-';
  }

  lemma CastThenComment(end: string)
    requires '\n' !in end
    ensures Lex(CastText() + end) == Ok(["::", "integer"])
  {
    var comment := "--" + end;
    Regrouped("::", "integer", " ", "--", end);
    CommentSkipped(end);
    SpaceSkipped(comment);
    LettersAreWord("integer");
    LexWordAt("integer", " " + comment);
    LexPairAt("::", "integer" + (" " + comment));
    assert ["integer"] + [] == ["integer"] && ["::"] + ["integer"] == ["::", "integer"];
  }

  /** A name that is a single quote, before what the tokenizer reads as a cast. */
  lemma QuoteThenCast(mysql: bool, rest: string)
    requires !StartsWith(rest, '"') && Lex(rest) == Ok(["::", "integer"])
    ensures Canonical(mysql, ['"'] + "'" + ['"'] + rest) == Err(SliceOutOfRange)
  {
    QuotedNameAt('"', "'", rest);
    assert ToLower("'") == "'";
    assert ["'"] + ["::", "integer"] == ["'", "::", "integer"];
    CutName(mysql);
  }

  /** To MySQL's decoding the same text is one literal after a double quote. */
  lemma QuoteThenLiteral(content: string)
    requires '\'' !in content && '\\' !in content
    ensures var text := ['"'] + "'" + ['"'] + (content + "'"); Literals(text) == Ok(text)
  {
    var inner := ['"'] + content;
    var text := ['"'] + "'" + ['"'] + (content + "'");
    DoubledPlain(inner);
    assert text == ['"'] + Quote(inner) && Quote(inner) + "" == Quote(inner);
    QuotedKept(inner, "");
    OutsideKept(['"'], Quote(inner));
  }

  /** A double-quoted name that is a quote, cast to an integer, with a quote in a comment at the end: in either mode. */
  lemma QuotedQuoteSlicesOutOfRange()
    ensures var text := ['"'] + "'" + ['"'] + (CastText() + "'");
      && Canonical(false, text) == Err(SliceOutOfRange)
      && MysqlCanonical(text) == Err(ParseFailure(SliceOutOfRange))
  {
    CastThenComment("'");
    PlainCast();
    QuoteThenCast(false, CastText() + "'");
    QuoteThenCast(true, CastText() + "'");
    QuoteThenLiteral(CastText());
  }

  lemma PlainCast()
    ensures '\'' !in CastText() && '\\' !in CastText() && !StartsWith(CastText() + "'", '"')
  {
    assert '\'' !in "integer" && '\\' !in "integer";
    assert '\'' !in (" " + "--") && '\\' !in (" " + "--");
  }
}
