/**
 * MySQL expressions as text: what their spelled literals, the escaping of stored CHECK clauses and
 * the zero comparisons add up to.
 */
module MysqlMeaning {
  import opened Outcomes
  import opened Tokenizer
  import opened Expressions
  import opened ExpressionParser
  import opened ExpressionSemantics
  import opened ExpressionMeaning
  import opened MysqlText
  import opened ParsePrint

  /** A MySQL text that, with its literals respelled, is the printing of the expression. */
  predicate Spells(sql: string, e: Src) {
    Literals(sql).Ok? && Lex(Literals(sql).value) == Ok(Print(e))
  }

  /** Two MySQL texts with equal canonical strings are never semantically different. */
  lemma EqualMysqlEqualTruth(types: Types, sql1: string, e1: Src, sql2: string, e2: Src)
    requires Contract(true, types, e1) && Spells(sql1, e1)
    requires Contract(true, types, e2) && Spells(sql2, e2)
    requires MysqlCanonical(sql1) == MysqlCanonical(sql2)
    ensures forall db: Db :: db.mysql && Models(db, types) ==> Truth(db, Eval(db, e1)) == Truth(db, Eval(db, e2))
  {
    SpelledCanonical(types, sql1, e1);
    SpelledCanonical(types, sql2, e2);
    EqualCanonicalEqualTruth(true, types, Literals(sql1).value, e1, Literals(sql2).value, e2);
  }

  lemma SpelledCanonical(types: Types, sql: string, e: Src)
    requires Contract(true, types, e) && Spells(sql, e)
    ensures Canonical(true, Literals(sql).value).Ok?
    ensures MysqlCanonical(sql) == Ok(Canonical(true, Literals(sql).value).value)
  {
    CanonicalOfPrint(true, e);
  }

  /** A stored CHECK clause and an authored one with equal canonical strings are never semantically different. */
  lemma StoredCheckKeepsTruth(types: Types, stored: string, e1: Src, authored: string, e2: Src)
    requires Contract(true, types, e1) && Spells(stored, e1)
    requires Contract(true, types, e2) && Spells(authored, e2)
    requires MysqlCheck(MetadataEscaped(stored)) == MysqlCanonical(authored)
    ensures forall db: Db :: db.mysql && Models(db, types) ==> Truth(db, Eval(db, e1)) == Truth(db, Eval(db, e2))
  {
    StoredCheckReadsBack(stored);
    EqualMysqlEqualTruth(types, stored, e1, authored, e2);
  }
}
