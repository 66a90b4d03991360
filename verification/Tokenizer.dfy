/**
 * The verification-expression tokenizer (internal/migrations/expression.go).
 *
 * `Lex` says which token sequence a text denotes, one lexeme at a time; `Tokenize` is the
 * scanner with its index loops. A lexeme is either skipped (space, comment, character-set
 * introducer), a token, or an unterminated quote.
 */
module Tokenizer {
  import opened Outcomes
  import opened Text

  datatype LexError = UnterminatedQuote | UnsupportedToken
  type Tokens = Result<seq<string>, LexError>

  datatype Lexeme = Skip(width: nat) | Token(text: string, width: nat) | Open | Unsupported

  predicate IsSpace(c: char) {
    '\t' <= c <= '\r' || c == ' ' || c == '\U{85}' || c == '\U{A0}'
  }

  predicate IsSpecial(c: char) {
    || c == '(' || c == ')' || c == ',' || c == '[' || c == ']'
    || c == '=' || c == '<' || c == '>' || c == '!' || c == ';' || c == ':'
  }

  predicate IsQuote(c: char) { c == '\'' || c == '"' || c == '`' }

  predicate IsWordChar(c: char) { !IsSpace(c) && !IsSpecial(c) && !IsQuote(c) }

  /** The two-character symbols `<=`, `>=`, `!=`, `<>` and `::`. */
  predicate IsPair(s: string) {
    && |s| == 2
    && ( || ((s[0] == '<' || s[0] == '>' || s[0] == '!') && s[1] == '=')
         || (s[0] == '<' && s[1] == '>')
         || (s[0] == ':' && s[1] == ':'))
  }

  predicate IsIntroducer(word: string) { word in {"_utf8mb4", "_utf8mb3", "_latin1", "_ascii"} }

  predicate StartsWith(s: string, c: char) { |s| > 0 && s[0] == c }

  /** Length of the longest prefix of word characters. */
  function WordWidth(s: string): (n: nat)
    ensures n <= |s|
    ensures |s| > 0 && IsWordChar(s[0]) ==> n > 0
  {
    if |s| > 0 && IsWordChar(s[0]) then 1 + WordWidth(s[1..]) else 0
  }

  /** Length of the text before the first newline. */
  function LineWidth(s: string): (n: nat)
    ensures n <= |s|
  {
    if |s| > 0 && s[0] != '\n' then 1 + LineWidth(s[1..]) else 0
  }

  /** How much of `s`, the text after an opening quote, runs up to and including the closing one. */
  function QuoteWidth(s: string, quote: char): (n: Option<nat>)
    ensures n.Some? ==> 1 <= n.value <= |s|
  {
    if s == [] then None
    else if s[0] != quote then Shift(QuoteWidth(s[1..], quote), 1)
    else if |s| > 1 && s[1] == quote then Shift(QuoteWidth(s[2..], quote), 2)
    else Some(1)
  }

  function Shift(width: Option<nat>, extra: nat): Option<nat> {
    if width.Some? then Some(width.value + extra) else None
  }

  function QuotedLexeme(s: string): Lexeme
    requires |s| > 0 && IsQuote(s[0])
  {
    match QuoteWidth(s[1..], s[0])
    case None => Open
    case Some(n) => Token(if s[0] == '\'' then s[..n + 1] else ToLower(s[1..n]), n + 1)
  }

  function SpecialWidth(s: string): nat
    requires |s| > 0
  {
    if |s| > 1 && IsPair(s[..2]) then 2 else 1
  }

  function WordLexeme(s: string): Lexeme {
    var n := WordWidth(s);
    var word := ToLower(s[..n]);
    if n == 0 then Unsupported
    else if IsIntroducer(word) && StartsWith(s[n..], '\'') then Skip(n)
    else Token(word, n)
  }

  /** The first lexeme of a nonempty text. */
  function First(s: string): (l: Lexeme)
    requires |s| > 0
    ensures l.Skip? || l.Token? ==> 1 <= l.width <= |s|
    ensures l.Token? ==> |l.text| <= l.width
  {
    if IsSpace(s[0]) then Skip(1)
    else if s[0] == '-' && StartsWith(s[1..], '-') then Skip(LineWidth(s))
    else if IsQuote(s[0]) then QuotedLexeme(s)
    else if IsSpecial(s[0]) then Token(s[..SpecialWidth(s)], SpecialWidth(s))
    else WordLexeme(s)
  }

  function Prepend(tokens: seq<string>, tail: Tokens): Tokens {
    match tail case Ok(ts) => Ok(tokens + ts) case Err(e) => Err(e)
  }

  /** The tokens of a text. */
  function Lex(s: string): Tokens {
    if s == [] then Ok([])
    else match First(s)
      case Open => Err(UnterminatedQuote)
      case Unsupported => Err(UnsupportedToken)
      case Skip(n) => Lex(s[n..])
      case Token(t, n) => Prepend([t], Lex(s[n..]))
  }

  lemma PrependPrepend(a: seq<string>, b: seq<string>, tail: Tokens)
    ensures Prepend(a, Prepend(b, tail)) == Prepend(a + b, tail)
  {
    if tail.Ok? {
      assert a + (b + tail.value) == a + b + tail.value;
    }
  }

  /** The error for a character no rule accepts is never returned: every other character starts a word. */
  lemma {:induction false} OnlyOpenQuotesFail(s: string)
    ensures Lex(s).Err? ==> Lex(s).error == UnterminatedQuote
    ensures Lex(s).Err? ==> exists i :: 0 <= i < |s| && IsQuote(s[i]) && QuoteWidth(s[i + 1..], s[i]).None?
  {
    if s != [] && !First(s).Open? {
      var n := First(s).width;
      OnlyOpenQuotesFail(s[n..]);
      if Lex(s).Err? {
        var i :| 0 <= i < |s[n..]| && IsQuote(s[n..][i]) && QuoteWidth(s[n..][i + 1..], s[n..][i]).None?;
        assert s[n..][i + 1..] == s[n + i + 1..];
        assert IsQuote(s[n + i]);
      }
    } else if s != [] {
      assert IsQuote(s[0]) && s[0 + 1..] == s[1..];
    }
  }

  /** What is scanned so far, followed by everything from position `i` on. */
  function Scanned(sql: string, tokens: seq<string>, i: nat): Tokens
    requires i <= |sql|
  {
    Prepend(tokens, Lex(sql[i..]))
  }

  lemma ScanStep(sql: string, tokens: seq<string>, i: nat, lexeme: Lexeme)
    requires i < |sql| && lexeme == First(sql[i..])
    ensures lexeme.Open? ==> Scanned(sql, tokens, i) == Err(UnterminatedQuote)
    ensures lexeme.Unsupported? ==> Scanned(sql, tokens, i) == Err(UnsupportedToken)
    ensures lexeme.Skip? ==> Scanned(sql, tokens, i) == Scanned(sql, tokens, i + lexeme.width)
    ensures lexeme.Token? ==> Scanned(sql, tokens, i) == Scanned(sql, tokens + [lexeme.text], i + lexeme.width)
  {
    if lexeme.Skip? || lexeme.Token? {
      assert sql[i..][lexeme.width..] == sql[i + lexeme.width..];
    }
    if lexeme.Token? {
      PrependPrepend(tokens, [lexeme.text], Lex(sql[i + lexeme.width..]));
    }
  }

  method Tokenize(sql: string) returns (result: Tokens)
    ensures result == Lex(sql)
  {
    var tokens: seq<string> := [];
    var i := 0;
    ghost var whole := Lex(sql);
    assert sql[0..] == sql;
    assert whole.Ok? ==> [] + whole.value == whole.value;
    while i < |sql|
      invariant i <= |sql|
      invariant whole == Scanned(sql, tokens, i)
    {
      var lexeme := ReadLexeme(sql, i);
      ScanStep(sql, tokens, i, lexeme);
      match lexeme {
        case Open => return Err(UnterminatedQuote);
        case Unsupported => return Err(UnsupportedToken);
        case Skip(width) => i := i + width;
        case Token(text, width) => tokens, i := tokens + [text], i + width;
      }
    }
    assert sql[i..] == [] && tokens + [] == tokens;
    return Ok(tokens);
  }

  /** One round of the scanning loop, from position `i`. */
  method ReadLexeme(sql: string, i: nat) returns (lexeme: Lexeme)
    requires i < |sql|
    ensures lexeme == First(sql[i..])
  {
    var c := sql[i];
    ghost var rest := sql[i..];
    if IsSpace(c) {
      return Skip(1);
    }
    if c == '-' && i + 1 < |sql| && sql[i + 1] == '-' {
      var end := SkipLine(sql, i);
      return Skip(end - i);
    }
    if IsQuote(c) {
      var end, closed := SkipQuoted(sql, i);
      assert sql[i + 1..] == rest[1..];
      if !closed {
        return Open;
      }
      var value := sql[i..end];
      assert value == rest[..end - i] && value[1..|value| - 1] == rest[1..end - i - 1];
      return Token(if c == '\'' then value else ToLower(value[1..|value| - 1]), end - i);
    }
    if IsSpecial(c) {
      var end := i + 1;
      if end < |sql| && IsPair(sql[i..end + 1]) {
        end := end + 1;
      }
      assert i + 1 < |sql| ==> sql[i..i + 2] == rest[..2];
      assert sql[i..end] == rest[..end - i];
      return Token(sql[i..end], end - i);
    }
    var end := SkipWord(sql, i);
    if end == i {
      return Unsupported;
    }
    assert sql[i..end] == rest[..end - i] && sql[end..] == rest[end - i..];
    var word := ToLower(sql[i..end]);
    if IsIntroducer(word) && end < |sql| && sql[end] == '\'' {
      return Skip(end - i);
    }
    return Token(word, end - i);
  }

  method SkipLine(sql: string, from: nat) returns (i: nat)
    requires from <= |sql|
    ensures i == from + LineWidth(sql[from..])
  {
    i := from;
    while i < |sql| && sql[i] != '\n'
      invariant from <= i <= |sql|
      invariant LineWidth(sql[from..]) == i - from + LineWidth(sql[i..])
    {
      assert sql[i..][1..] == sql[i + 1..];
      i := i + 1;
    }
  }

  method SkipWord(sql: string, from: nat) returns (i: nat)
    requires from <= |sql|
    ensures i == from + WordWidth(sql[from..])
  {
    i := from;
    while i < |sql| && IsWordChar(sql[i])
      invariant from <= i <= |sql|
      invariant WordWidth(sql[from..]) == i - from + WordWidth(sql[i..])
    {
      assert sql[i..][1..] == sql[i + 1..];
      i := i + 1;
    }
  }

  /** Steps over the quoted text that starts at `from`; a doubled quote stays inside it. */
  method SkipQuoted(sql: string, from: nat) returns (i: nat, closed: bool)
    requires from < |sql|
    ensures closed == QuoteWidth(sql[from + 1..], sql[from]).Some?
    ensures closed ==> i == from + 1 + QuoteWidth(sql[from + 1..], sql[from]).value
    ensures from < i <= |sql|
  {
    var quote := sql[from];
    i := from + 1;
    closed := false;
    while i < |sql|
      invariant from < i <= |sql|
      invariant !closed
      invariant QuoteWidth(sql[from + 1..], quote) == Shift(QuoteWidth(sql[i..], quote), i - from - 1)
      decreases |sql| - i
    {
      assert i + 1 < |sql| ==> sql[i..][1] == sql[i + 1] && sql[i..][2..] == sql[i + 2..];
      assert sql[i..][1..] == sql[i + 1..];
      if sql[i] == quote {
        if i + 1 < |sql| && sql[i + 1] == quote {
          i := i + 2;
          continue;
        }
        i := i + 1;
        closed := true;
        break;
      }
      i := i + 1;
    }
  }
}
