/**
 * MySQL's spelling of expressions (internal/migrations/mysql_expression.go): metadata
 * escaping, and backslash escapes inside string literals.
 */
module MysqlText {
  import opened Outcomes
  import opened Text
  import opened Tokenizer
  import opened ExpressionParser
  import opened Expressions
  import opened CanonicalStrings

  datatype EscapeError = UnsupportedMetadataEscape | UnfinishedEscape | UnsupportedEscape | UnterminatedLiteral

  type Decoded = Result<string, EscapeError>

  function Append(front: string, tail: Decoded): Decoded {
    match tail case Ok(text) => Ok(front + text) case Err(e) => Err(e)
  }

  lemma AppendAppend(a: string, b: string, tail: Decoded)
    ensures Append(a, Append(b, tail)) == Append(a + b, tail)
  {
    if tail.Ok? {
      assert a + (b + tail.value) == a + b + tail.value;
    }
  }

  // ----- the metadata layer -----

  /** One level of backslash escaping removed; only backslashes and single quotes may be escaped. */
  function MetadataSql(value: string): Decoded {
    if value == [] then Ok("")
    else if value[0] != '\\' then Append(value[..1], MetadataSql(value[1..]))
    else if |value| == 1 || (value[1] != '\\' && value[1] != '\'') then Err(UnsupportedMetadataEscape)
    else Append(value[1..2], MetadataSql(value[2..]))
  }

  /** How MySQL stores a printed expression in its metadata. */
  function MetadataEscaped(sql: string): string {
    if sql == [] then []
    else if sql[0] == '\\' || sql[0] == '\'' then ['\\', sql[0]] + MetadataEscaped(sql[1..])
    else [sql[0]] + MetadataEscaped(sql[1..])
  }

  /** Decoding undoes MySQL's escaping, for every text. */
  lemma {:induction false} MetadataRoundTrip(sql: string)
    ensures MetadataSql(MetadataEscaped(sql)) == Ok(sql)
  {
    if sql != [] {
      MetadataRoundTrip(sql[1..]);
      var escaped, tail := MetadataEscaped(sql), MetadataEscaped(sql[1..]);
      assert sql == [sql[0]] + sql[1..];
      if sql[0] == '\\' || sql[0] == '\'' {
        assert escaped[1] == sql[0] && escaped[2..] == tail && escaped[1..2] == [sql[0]];
      } else {
        assert escaped[1..] == tail && escaped[..1] == [sql[0]];
      }
    }
  }

  method ReadMetadataSql(value: string) returns (result: Decoded)
    ensures result == MetadataSql(value)
  {
    var sql := "";
    var i := 0;
    assert value[0..] == value;
    assert MetadataSql(value).Ok? ==> "" + MetadataSql(value).value == MetadataSql(value).value;
    while i < |value|
      invariant i <= |value|
      invariant MetadataSql(value) == Append(sql, MetadataSql(value[i..]))
    {
      ghost var rest := value[i..];
      ghost var escaped := value[i] == '\\';
      if value[i] == '\\' {
        i := i + 1;
        if i == |value| || (value[i] != '\\' && value[i] != '\'') {
          return Err(UnsupportedMetadataEscape);
        }
      }
      if escaped {
        assert rest[1..2] == [value[i]] && rest[2..] == value[i + 1..];
      } else {
        assert rest[..1] == [value[i]] && rest[1..] == value[i + 1..];
      }
      AppendAppend(sql, [value[i]], MetadataSql(value[i + 1..]));
      sql := sql + [value[i]];
      i := i + 1;
    }
    assert value[i..] == [] && sql + "" == sql;
    return Ok(sql);
  }

  // ----- string literals -----

  /** The character a backslash escape stands for. */
  function EscapeValue(c: char): Option<char> {
    match c
    case '\\' => Some('\\') case '\'' => Some('\'') case '"' => Some('"')
    case '0' => Some('\0')
    case 'b' => Some('\U{08}') case 'n' => Some('\n') case 'r' => Some('\r') case 't' => Some('\t')
    case 'Z' => Some('\U{1A}')
    case _ => None
  }

  datatype Body = Body(content: string, rest: string) | BadBody(error: EscapeError)

  function Push(front: string, body: Body): Body {
    match body case Body(content, rest) => Body(front + content, rest) case BadBody(e) => BadBody(e)
  }

  /** The text after an opening quote: the literal's characters and what follows its closing quote. */
  function LiteralBody(s: string): (r: Body)
    ensures r.Body? ==> |r.rest| < |s|
  {
    if s == [] then BadBody(UnterminatedLiteral)
    else if s[0] == '\\' then
      if |s| == 1 then BadBody(UnfinishedEscape)
      else match EscapeValue(s[1])
        case None => BadBody(UnsupportedEscape)
        case Some(c) => Push([c], LiteralBody(s[2..]))
    else if s[0] != '\'' then Push(s[..1], LiteralBody(s[1..]))
    else if |s| > 1 && s[1] == '\'' then Push("'", LiteralBody(s[2..]))
    else Body("", s[1..])
  }

  /** Every literal respelled with standard quoting; everything else unchanged. */
  function Literals(sql: string): Decoded
    decreases |sql|
  {
    if sql == [] then Ok("")
    else if sql[0] != '\'' then Append(sql[..1], Literals(sql[1..]))
    else match LiteralBody(sql[1..])
      case BadBody(e) => Err(e)
      case Body(content, rest) => Append(Quote(content), Literals(rest))
  }

  lemma PushPush(a: string, b: string, body: Body)
    ensures Push(a, Push(b, body)) == Push(a + b, body)
  {}

  method ReadLiterals(sql: string) returns (result: Decoded)
    ensures result == Literals(sql)
  {
    var normalized := "";
    var i := 0;
    assert sql[0..] == sql;
    assert Literals(sql).Ok? ==> "" + Literals(sql).value == Literals(sql).value;
    while i < |sql|
      invariant i <= |sql|
      invariant Literals(sql) == Append(normalized, Literals(sql[i..]))
    {
      ghost var rest := sql[i..];
      if sql[i] != '\'' {
        assert sql[i + 1..] == rest[1..] && [sql[i]] == rest[..1];
        AppendAppend(normalized, [sql[i]], Literals(sql[i + 1..]));
        normalized, i := normalized + [sql[i]], i + 1;
        continue;
      }
      assert sql[i + 1..] == rest[1..];
      var literal, end := ReadLiteral(sql, i + 1);
      if literal.BadBody? {
        return Err(literal.error);
      }
      var quoted := ReadDoubled(literal.content);
      AppendAppend(normalized, Quote(literal.content), Literals(sql[end..]));
      normalized, i := normalized + ("'" + quoted + "'"), end;
    }
    assert sql[i..] == [] && normalized + "" == normalized;
    return Ok(normalized);
  }

  /** The inner loop: from just after the opening quote at `from - 1`. */
  method ReadLiteral(sql: string, from: nat) returns (result: Body, end: nat)
    requires from <= |sql|
    ensures result == LiteralBody(sql[from..])
    ensures result.Body? ==> from < end <= |sql| && result.rest == sql[end..]
  {
    var literal := "";
    var i := from;
    var closed := false;
    end := from;
    ghost var whole := LiteralBody(sql[from..]);
    assert whole.Body? ==> "" + whole.content == whole.content;
    while i < |sql| && !closed
      invariant from <= i <= |sql|
      invariant !closed ==> whole == Push(literal, LiteralBody(sql[i..]))
      invariant closed ==> from < i && whole == Body(literal, sql[i..])
      decreases |sql| - i, !closed
    {
      ghost var rest := sql[i..];
      ghost var before := literal;
      assert rest[1..] == sql[i + 1..];
      assert i + 1 < |sql| ==> rest[2..] == sql[i + 2..] && rest[1] == sql[i + 1];
      if sql[i] == '\\' {
        if i + 1 == |sql| {
          return BadBody(UnfinishedEscape), end;
        }
        var value := EscapeValue(sql[i + 1]);
        if value.None? {
          return BadBody(UnsupportedEscape), end;
        }
        PushPush(before, [value.value], LiteralBody(sql[i + 2..]));
        literal, i := literal + [value.value], i + 2;
      } else if sql[i] == '\'' {
        if i + 1 < |sql| && sql[i + 1] == '\'' {
          PushPush(before, "'", LiteralBody(sql[i + 2..]));
          literal, i := literal + "'", i + 2;
        } else {
          assert literal + "" == literal;
          i, closed := i + 1, true;
        }
      } else {
        assert rest[..1] == [sql[i]];
        PushPush(before, [sql[i]], LiteralBody(sql[i + 1..]));
        literal, i := literal + [sql[i]], i + 1;
      }
    }
    if !closed {
      assert sql[i..] == [];
      return BadBody(UnterminatedLiteral), end;
    }
    return Body(literal, sql[i..]), i;
  }

  lemma {:induction false} DoubledAppend(a: string, c: char)
    ensures Doubled(a + [c]) == Doubled(a) + (if c == '\'' then "''" else [c])
  {
    if a == [] {
      assert a + [c] == [c] && [c][1..] == [];
    } else {
      DoubledAppend(a[1..], c);
      assert (a + [c])[1..] == a[1..] + [c];
    }
  }

  /** strings.ReplaceAll(content, "'", "''"). */
  method ReadDoubled(content: string) returns (text: string)
    ensures text == Doubled(content)
  {
    text := "";
    for i := 0 to |content|
      invariant text == Doubled(content[..i])
    {
      DoubledAppend(content[..i], content[i]);
      assert content[..i + 1] == content[..i] + [content[i]];
      text := text + if content[i] == '\'' then "''" else [content[i]];
    }
    assert content[..|content|] == content;
  }

  // ----- what the respelling keeps -----

  datatype Mark = Plain(c: char) | Escaped(c: char) | Twice

  datatype Piece = Outside(c: char) | Inside(marks: seq<Mark>)

  predicate ValidMark(m: Mark) {
    match m
    case Plain(c) => c != '\'' && c != '\\'
    case Escaped(c) => EscapeValue(c).Some?
    case Twice => true
  }

  function MarkText(m: Mark): string {
    match m case Plain(c) => [c] case Escaped(c) => ['\\', c] case Twice => "''"
  }

  function MarkValue(m: Mark): char
    requires ValidMark(m)
  {
    match m case Plain(c) => c case Escaped(c) => EscapeValue(c).value case Twice => '\''
  }

  predicate ValidMarks(marks: seq<Mark>) { forall i :: 0 <= i < |marks| ==> ValidMark(marks[i]) }

  function MarksText(marks: seq<Mark>): string {
    if marks == [] then "" else MarkText(marks[0]) + MarksText(marks[1..])
  }

  /** The character value of a literal. */
  function MarksValue(marks: seq<Mark>): string
    requires ValidMarks(marks)
  {
    if marks == [] then "" else [MarkValue(marks[0])] + MarksValue(marks[1..])
  }

  /** A text cut into the characters outside literals and the literals; no two literals touch. */
  predicate ValidPieces(pieces: seq<Piece>) {
    && (forall i :: 0 <= i < |pieces| ==>
          match pieces[i] case Outside(c) => c != '\'' case Inside(marks) => ValidMarks(marks))
    && (forall i :: 0 < i < |pieces| ==> pieces[i].Outside? || pieces[i - 1].Outside?)
  }

  /** MySQL's spelling. */
  function MysqlSpelling(pieces: seq<Piece>): string {
    if pieces == [] then ""
    else (match pieces[0] case Outside(c) => [c] case Inside(marks) => "'" + MarksText(marks) + "'")
         + MysqlSpelling(pieces[1..])
  }

  /** Standard spelling: the same outside text, and literals of the same value. */
  function StandardSpelling(pieces: seq<Piece>): string
    requires ValidPieces(pieces)
  {
    if pieces == [] then ""
    else (match pieces[0] case Outside(c) => [c] case Inside(marks) => Quote(MarksValue(marks)))
         + StandardSpelling(pieces[1..])
  }

  lemma {:induction false} BodyOfMarks(marks: seq<Mark>, rest: string)
    requires ValidMarks(marks) && !StartsWith(rest, '\'')
    ensures LiteralBody(MarksText(marks) + "'" + rest) == Body(MarksValue(marks), rest)
  {
    var s := MarksText(marks) + "'" + rest;
    if marks == [] {
      assert s == "'" + rest && s[1..] == rest;
    } else {
      BodyOfMarks(marks[1..], rest);
      var m, tail := marks[0], MarksText(marks[1..]) + "'" + rest;
      assert s == MarkText(m) + tail;
      assert s[|MarkText(m)|..] == tail && s[..|MarkText(m)|] == MarkText(m);
      assert s[0] == MarkText(m)[0];
      if |MarkText(m)| == 2 {
        assert s[1] == MarkText(m)[1];
      }
    }
  }

  /** A literal before text that does not continue it. */
  lemma LiteralThenRest(marks: seq<Mark>, tail: string)
    requires ValidMarks(marks) && !StartsWith(tail, '\'')
    ensures var s := "'" + MarksText(marks) + "'" + tail;
      && s[0] == '\'' && LiteralBody(s[1..]) == Body(MarksValue(marks), tail)
  {
    var s := "'" + MarksText(marks) + "'" + tail;
    assert s[1..] == MarksText(marks) + "'" + tail;
    BodyOfMarks(marks, tail);
  }

  lemma SpellingStart(pieces: seq<Piece>)
    requires ValidPieces(pieces) && pieces != [] && pieces[0].Inside?
    ensures !StartsWith(MysqlSpelling(pieces[1..]), '\'') && ValidMarks(pieces[0].marks)
    ensures MysqlSpelling(pieces) == "'" + MarksText(pieces[0].marks) + "'" + MysqlSpelling(pieces[1..])
  {}

  /** Every spelled text is accepted and comes out in standard spelling. */
  lemma {:induction false} LiteralsOfSpelling(pieces: seq<Piece>)
    requires ValidPieces(pieces)
    ensures Literals(MysqlSpelling(pieces)) == Ok(StandardSpelling(pieces))
  {
    if pieces != [] {
      LiteralsOfSpelling(pieces[1..]);
      if pieces[0].Outside? {
        var s := MysqlSpelling(pieces);
        assert s[1..] == MysqlSpelling(pieces[1..]) && s[..1] == [s[0]];
      } else {
        SpellingStart(pieces);
        LiteralThenRest(pieces[0].marks, MysqlSpelling(pieces[1..]));
      }
    }
  }

  lemma MarksCons(m: Mark, more: seq<Mark>, rest: string)
    ensures MarksText([m] + more) + "'" + rest == MarkText(m) + (MarksText(more) + "'" + rest)
  {}

  lemma {:induction false} MarksOfBody(s: string) returns (marks: seq<Mark>)
    requires LiteralBody(s).Body?
    ensures ValidMarks(marks) && s == MarksText(marks) + "'" + LiteralBody(s).rest
    ensures !StartsWith(LiteralBody(s).rest, '\'')
  {
    if s[0] == '\'' && !(|s| > 1 && s[1] == '\'') {
      marks := [];
      assert s == "'" + s[1..];
    } else {
      var m := FirstMark(s);
      var more := MarksOfBody(s[|MarkText(m)|..]);
      marks := [m] + more;
      assert marks[1..] == more;
      MarksCons(m, more, LiteralBody(s).rest);
    }
  }

  lemma FirstMark(s: string) returns (m: Mark)
    requires LiteralBody(s).Body? && !(s[0] == '\'' && !(|s| > 1 && s[1] == '\''))
    ensures ValidMarks([m]) && |MarkText(m)| <= |s| && s == MarkText(m) + s[|MarkText(m)|..]
    ensures LiteralBody(s[|MarkText(m)|..]).Body? && LiteralBody(s[|MarkText(m)|..]).rest == LiteralBody(s).rest
  {
    m := if s[0] == '\\' then Escaped(s[1]) else if s[0] == '\'' then Twice else Plain(s[0]);
  }

  lemma LiteralSpelled(marks: seq<Mark>, more: seq<Piece>, sql: string, rest: string)
    requires sql != [] && sql[0] == '\'' && sql[1..] == MarksText(marks) + "'" + rest && rest == MysqlSpelling(more)
    ensures sql == MysqlSpelling([Inside(marks)] + more)
  {
    assert ([Inside(marks)] + more)[1..] == more;
    assert sql == "'" + sql[1..];
    assert "'" + (MarksText(marks) + "'" + rest) == "'" + MarksText(marks) + "'" + rest;
  }

  /** Nothing else is accepted: an accepted text is the spelling of some pieces. */
  lemma {:induction false} SpellingOfLiterals(sql: string) returns (pieces: seq<Piece>)
    requires Literals(sql).Ok?
    ensures ValidPieces(pieces) && sql == MysqlSpelling(pieces) && Literals(sql) == Ok(StandardSpelling(pieces))
    ensures pieces != [] && pieces[0].Inside? ==> StartsWith(sql, '\'')
    decreases |sql|
  {
    if sql == [] {
      pieces := [];
    } else if sql[0] != '\'' {
      var more := SpellingOfLiterals(sql[1..]);
      pieces := [Outside(sql[0])] + more;
      assert pieces[1..] == more && sql == [sql[0]] + sql[1..];
      LiteralsOfSpelling(pieces);
    } else {
      var marks := MarksOfBody(sql[1..]);
      var rest := LiteralBody(sql[1..]).rest;
      var more := SpellingOfLiterals(rest);
      pieces := [Inside(marks)] + more;
      assert pieces[1..] == more;
      LiteralSpelled(marks, more, sql, rest);
      LiteralsOfSpelling(pieces);
    }
  }

  /** Accepted exactly when the text is a spelling; a bad or unfinished escape or an open literal is refused. */
  lemma AcceptedExactly(sql: string)
    ensures Literals(sql).Ok? <==> exists pieces :: ValidPieces(pieces) && sql == MysqlSpelling(pieces)
  {
    if Literals(sql).Ok? {
      var pieces := SpellingOfLiterals(sql);
    }
    forall pieces | ValidPieces(pieces) && sql == MysqlSpelling(pieces)
      ensures Literals(sql).Ok?
    {
      LiteralsOfSpelling(pieces);
    }
  }

  /** Each respelled literal is one token of the result, with the literal's own characters. */
  lemma RespelledLiteralIsOneToken(marks: seq<Mark>, rest: string)
    requires ValidMarks(marks) && !StartsWith(rest, '\'')
    ensures Lex(Quote(MarksValue(marks)) + rest) == Prepend([Quote(MarksValue(marks))], Lex(rest))
  {
    LexQuoteAt(MarksValue(marks), rest);
  }

  // ----- the MySQL reading of an expression -----

  datatype MysqlError = EscapeFailure(escape: EscapeError) | ParseFailure(parse: ParseError)

  function MysqlCanonical(sql: string): Result<string, MysqlError> {
    match Literals(sql)
    case Err(e) => Err(EscapeFailure(e))
    case Ok(standard) =>
      match Canonical(true, standard) case Ok(text) => Ok(text) case Err(e) => Err(ParseFailure(e))
  }

  /** What a text is read as, in either mode. */
  function ReadText(sql: string, mysql: bool): Result<string, MysqlError> {
    if mysql then MysqlCanonical(sql)
    else match Canonical(false, sql) case Ok(text) => Ok(text) case Err(e) => Err(ParseFailure(e))
  }

  method ReadExpression(sql: string, mysql: bool) returns (result: Result<string, MysqlError>)
    ensures result == ReadText(sql, mysql)
  {
    var standard := sql;
    if mysql {
      var decoded := ReadLiterals(sql);
      if decoded.Err? {
        return Err(EscapeFailure(decoded.error));
      }
      standard := decoded.value;
    }
    var text := ParseExpression(standard, mysql);
    match text {
      case Ok(value) => return Ok(value);
      case Err(e) => return Err(ParseFailure(e));
    }
  }

  /** The reading of a CHECK clause stored in the metadata. */
  function MysqlCheck(check: string): Result<string, MysqlError> {
    match MetadataSql(check) case Err(e) => Err(EscapeFailure(e)) case Ok(sql) => MysqlCanonical(sql)
  }

  method ParseMysqlCheck(check: string) returns (result: Result<string, MysqlError>)
    ensures result == MysqlCheck(check)
  {
    var sql := ReadMetadataSql(check);
    if sql.Err? {
      return Err(EscapeFailure(sql.error));
    }
    result := ReadExpression(sql.value, true);
  }

  /** A stored CHECK clause is read as the expression MySQL printed into it. */
  lemma StoredCheckReadsBack(sql: string)
    ensures MysqlCheck(MetadataEscaped(sql)) == MysqlCanonical(sql)
  {
    MetadataRoundTrip(sql);
  }
}
