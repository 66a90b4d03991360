/**
 * Reading a canonical string again as MySQL text: when MySQL's literal decoding, which goes first,
 * leaves it alone.
 */
module MysqlFixedPoints {
  import opened Outcomes
  import opened Text
  import opened Decimal
  import opened Tokenizer
  import opened ExpressionParser
  import opened Expressions
  import opened CanonicalStrings
  import opened ParsePrint
  import opened FixedPoints
  import opened MysqlText

  // ----- counting backslashes -----

  function Slashes(s: string): nat {
    if s == [] then 0 else (if s[0] == '\\' then 1 else 0) + Slashes(s[1..])
  }

  function SlashesIn(tokens: seq<string>): nat {
    if tokens == [] then 0 else Slashes(tokens[0]) + SlashesIn(tokens[1..])
  }

  lemma {:induction false} SlashesConcat(a: string, b: string)
    ensures Slashes(a + b) == Slashes(a) + Slashes(b)
  {
    if a == [] {
      assert a + b == b;
    } else {
      assert (a + b)[1..] == a[1..] + b;
      SlashesConcat(a[1..], b);
    }
  }

  lemma {:induction false} SlashesLower(s: string)
    ensures Slashes(ToLower(s)) == Slashes(s)
  {
    if s != [] {
      assert ToLower(s)[1..] == ToLower(s[1..]);
      SlashesLower(s[1..]);
    }
  }

  lemma SlashesDrop(s: string, from: nat)
    requires from <= |s|
    ensures Slashes(s[from..]) <= Slashes(s)
  {
    assert s == s[..from] + s[from..];
    SlashesConcat(s[..from], s[from..]);
  }

  lemma SlashesTake(s: string, until: nat)
    requires until <= |s|
    ensures Slashes(s[..until]) <= Slashes(s)
  {
    assert s == s[..until] + s[until..];
    SlashesConcat(s[..until], s[until..]);
  }

  lemma SlashesSlice(s: string, from: nat, until: nat)
    requires from <= until <= |s|
    ensures Slashes(s[from..until]) <= Slashes(s)
  {
    SlashesTake(s, until);
    SlashesDrop(s[..until], from);
    assert s[..until][from..] == s[from..until];
  }

  lemma {:induction false} NoSlashes(s: string)
    requires '\\' !in s
    ensures Slashes(s) == 0
  {
    if s != [] {
      NoSlashes(s[1..]);
    }
  }

  // ----- tokenizing and parsing add none -----

  lemma FirstSlashes(s: string)
    requires |s| > 0 && First(s).Token?
    ensures Slashes(First(s).text) <= Slashes(s[..First(s).width])
  {
    var n := First(s).width;
    if IsQuote(s[0]) && s[0] != '\'' {
      SlashesLower(s[1..n - 1]);
      assert s[..n][1..n - 1] == s[1..n - 1];
      SlashesSlice(s[..n], 1, n - 1);
    } else if !IsQuote(s[0]) && !IsSpecial(s[0]) {
      SlashesLower(s[..n]);
    }
  }

  lemma {:induction false} LexSlashes(s: string)
    requires Lex(s).Ok?
    ensures SlashesIn(Lex(s).value) <= Slashes(s)
  {
    if s != [] {
      var n := First(s).width;
      assert s == s[..n] + s[n..];
      SlashesConcat(s[..n], s[n..]);
      LexSlashes(s[n..]);
      if First(s).Token? {
        FirstSlashes(s);
        assert Lex(s).value == [First(s).text] + Lex(s[n..]).value;
        assert Lex(s).value[1..] == Lex(s[n..]).value;
      }
    }
  }

  /** The value and the tokens left hold no more than the tokens given. */
  predicate Within(r: Parsed, tokens: seq<string>) { r.Parsed? ==> Slashes(r.value) + SlashesIn(r.rest) <= SlashesIn(tokens) }

  predicate ListWithin(r: ParsedList, tokens: seq<string>) {
    r.Items? ==> SlashesIn(r.items) + SlashesIn(r.rest) <= SlashesIn(tokens)
  }

  lemma {:induction false} ConditionSlashes(mysql: bool, value: string)
    ensures Condition(mysql, value).Ok? ==> Slashes(Condition(mysql, value).value) <= Slashes(value)
    decreases |value|
  {
    if mysql && Condition(mysql, value).Ok? {
      if "=(0," <= value {
        SliceSlashes(value, 4, 1);
      } else if "=(" <= value && HasSuffix(value, ",0)") {
        SliceSlashes(value, 2, 3);
      } else if "!=(0," <= value {
        SliceSlashes(value, 5, 1);
      } else if "!=(" <= value && HasSuffix(value, ",0)") {
        SliceSlashes(value, 3, 3);
      }
    }
  }

  lemma {:induction false} SliceSlashes(value: string, from: nat, drop: nat)
    requires from > 0 && ConditionSlice(value, from, drop).Ok?
    ensures Slashes(ConditionSlice(value, from, drop).value) <= Slashes(value)
    ensures Slashes(Negated(ConditionSlice(value, from, drop)).value) <= Slashes(value)
    decreases |value|, 0
  {
    SlashesSlice(value, from, |value| - drop);
    ConditionSlashes(true, value[from..|value| - drop]);
    Wrapped("not(", ConditionSlice(value, from, drop).value, ")");
  }

  /** Punctuation adds none. */
  lemma Wrapped(front: string, inner: string, back: string)
    requires '\\' !in front && '\\' !in back
    ensures Slashes(front + inner + back) == Slashes(inner)
  {
    NoSlashes(front);
    NoSlashes(back);
    SlashesConcat(front, inner);
    SlashesConcat(front + inner, back);
  }

  lemma Pair(front: string, left: string, right: string)
    requires '\\' !in front
    ensures Slashes(front + "(" + left + "," + right + ")") == Slashes(left) + Slashes(right)
  {
    assert front + "(" + left + "," + right + ")" == (front + "(") + (left + "," + right) + ")";
    Wrapped(front + "(", left + "," + right, ")");
    SlashesConcat(left + ",", right);
    Wrapped("", left, ",");
    assert "" + left + "," == left + ",";
  }

  lemma {:induction false} JoinSlashes(items: seq<string>)
    ensures Slashes(Join(items, ",")) == SlashesIn(items)
  {
    if |items| == 1 {
      assert items[1..] == [];
    } else if |items| > 1 {
      JoinSlashes(items[1..]);
      Wrapped("", items[0], ",");
      assert "" + items[0] + "," == items[0] + ",";
      SlashesConcat(items[0] + ",", Join(items[1..], ","));
    }
  }

  lemma Applied(name: string, items: seq<string>)
    ensures Slashes(name + "(" + Join(items, ",") + ")") == Slashes(name) + SlashesIn(items)
  {
    JoinSlashes(items);
    assert name + "(" + Join(items, ",") + ")" == name + ("(" + Join(items, ",") + ")");
    SlashesConcat(name, "(" + Join(items, ",") + ")");
    Wrapped("(", Join(items, ","), ")");
  }

  lemma OpPlain(op: string)
    requires Precedence(op) > 0
    ensures '\\' !in op
  {}

  lemma CombineSlashes(mysql: bool, op: string, left: string, right: string)
    requires Precedence(op) > 0
    ensures var r := Combine(mysql, op, left, right); r.Ok? ==> Slashes(r.value) <= Slashes(left) + Slashes(right)
  {
    OpPlain(op);
    if Combine(mysql, op, left, right).Ok? {
      if op == "=" && IsAnyArray(right) {
        SlashesSlice(right, |ANY_ARRAY|, |right| - 2);
        Pair("in", left, right[|ANY_ARRAY|..|right| - 2]);
        assert "in" + "(" == "in(";
      } else if op == "and" || op == "or" {
        ConditionSlashes(mysql, left);
        ConditionSlashes(mysql, right);
        Pair(op, Condition(mysql, left).value, Condition(mysql, right).value);
      } else {
        Pair(if op == "<>" then "!=" else op, left, right);
      }
    }
  }

  lemma {:induction false} DigitsPlain(n: nat)
    ensures '\\' !in Format(n)
  {
    assert forall i :: 0 <= i < |Format(n)| ==> IsDigit(Format(n)[i]);
  }

  lemma CastSlashes(ty: string, value: string)
    ensures CastValue(ty, value).Ok? ==> Slashes(CastValue(ty, value).value) <= Slashes(value)
  {
    var r := CastValue(ty, value);
    if r.Ok? && r.value != value {
      var n := ParseInt64(value[1..|value| - 1]).value;
      DigitsPlain(if n < 0 then -n else n);
      NoSlashes(FormatInt(n));
    }
  }

  lemma {:induction false} TailSlashes(tokens: seq<string>, n: nat)
    requires n <= |tokens|
    ensures SlashesIn(tokens[n..]) <= SlashesIn(tokens)
  {
    if n > 0 {
      TailSlashes(tokens[1..], n - 1);
      assert tokens[1..][n - 1..] == tokens[n..];
    }
  }

  lemma TypeNameSlashes(tokens: seq<string>)
    ensures AfterTypeName(tokens).Ok? ==> SlashesIn(AfterTypeName(tokens).value) <= SlashesIn(tokens)
  {
    if AfterTypeName(tokens).Ok? {
      var rest := AfterTypeName(tokens).value;
      TailSlashes(tokens, |tokens| - |rest|);
      assert rest == tokens[|tokens| - |rest|..];
    }
  }

  lemma BracketsSlashes(tokens: seq<string>)
    ensures AfterBrackets(tokens).Ok? ==> SlashesIn(AfterBrackets(tokens).value) <= SlashesIn(tokens)
  {
    if AfterBrackets(tokens).Ok? {
      var rest := AfterBrackets(tokens).value;
      TailSlashes(tokens, |tokens| - |rest|);
      assert rest == tokens[|tokens| - |rest|..];
    }
  }

  lemma OneCastSlashes(value: string, tokens: seq<string>)
    ensures var r := OneCast(value, tokens); r.Parsed? ==> Slashes(r.value) + SlashesIn(r.rest) <= Slashes(value) + SlashesIn(tokens)
  {
    TypeNameSlashes(tokens);
    if AfterTypeName(tokens).Ok? {
      CastSlashes(tokens[0], value);
      BracketsSlashes(AfterTypeName(tokens).value);
    }
  }

  lemma {:induction false} CastsSlashes(value: string, tokens: seq<string>)
    ensures var r := Casts(value, tokens); r.Parsed? ==> Slashes(r.value) + SlashesIn(r.rest) <= Slashes(value) + SlashesIn(tokens)
    decreases |tokens|
  {
    if At(tokens, "::") {
      TailSlashes(tokens, 1);
      OneCastSlashes(value, tokens[1..]);
      var r := OneCast(value, tokens[1..]);
      if r.Parsed? {
        CastsSlashes(r.value, r.rest);
      }
    }
  }

  // ----- the parser, routine by routine -----

  lemma {:induction false} ParseSlashes(mysql: bool, minimum: nat, tokens: seq<string>)
    ensures Within(Parse(mysql, minimum, tokens), tokens)
    decreases |tokens|, 2
  {
    AtomSlashes(mysql, tokens);
    var r := Atom(mysql, tokens);
    if r.Parsed? {
      ClimbSlashes(mysql, minimum, r.value, r.rest);
    }
  }

  lemma {:induction false} ClimbSlashes(mysql: bool, minimum: nat, left: string, tokens: seq<string>)
    ensures var r := Climb(mysql, minimum, left, tokens);
      r.Parsed? ==> Slashes(r.value) + SlashesIn(r.rest) <= Slashes(left) + SlashesIn(tokens)
    decreases |tokens|, 1
  {
    if !(tokens == [] || Precedence(tokens[0]) == 0 || Precedence(tokens[0]) < minimum) {
      ExtendSlashes(mysql, tokens[0], left, tokens[1..]);
      var r := Extend(mysql, tokens[0], left, tokens[1..]);
      if r.Parsed? {
        ClimbSlashes(mysql, minimum, r.value, r.rest);
      }
    }
  }

  lemma IsNullSlashes(left: string, negated: bool)
    ensures Slashes("isnull(" + left + "," + BoolText(negated) + ")") == Slashes(left)
  {
    Pair("isnull", left, BoolText(negated));
    NoSlashes(BoolText(negated));
    assert "isnull" + "(" == "isnull(";
  }

  lemma InSlashes(left: string, items: seq<string>)
    ensures Slashes("in(" + left + "," + Join(items, ",") + ")") == Slashes(left) + SlashesIn(items)
  {
    Pair("in", left, Join(items, ","));
    JoinSlashes(items);
    assert "in" + "(" == "in(";
  }

  lemma {:induction false} ExtendSlashes(mysql: bool, op: string, left: string, tokens: seq<string>)
    requires Precedence(op) > 0
    ensures var r := Extend(mysql, op, left, tokens);
      r.Parsed? ==> Slashes(r.value) + SlashesIn(r.rest) <= Slashes(left) + SlashesIn(tokens)
    decreases |tokens|, 3
  {
    if op == "is" {
      var after := if At(tokens, "not") then tokens[1..] else tokens;
      IsNullSlashes(left, At(tokens, "not"));
      if At(after, "null") {
        TailSlashes(after, 1);
        TailSlashes(tokens, |tokens| - |after|);
        assert after == tokens[|tokens| - |after|..];
      }
    } else if op == "in" {
      if At(tokens, "(") {
        ListSlashes(mysql, ")", tokens[1..]);
        TailSlashes(tokens, 1);
        var r := List(mysql, ")", tokens[1..]);
        if r.Items? {
          InSlashes(left, r.items);
        }
      }
    } else {
      ParseSlashes(mysql, Precedence(op) + 1, tokens);
      var r := Parse(mysql, Precedence(op) + 1, tokens);
      if r.Parsed? {
        CombineSlashes(mysql, op, left, r.value);
      }
    }
  }

  lemma {:induction false} AtomSlashes(mysql: bool, tokens: seq<string>)
    ensures Within(Atom(mysql, tokens), tokens)
    decreases |tokens|, 1
  {
    if tokens != [] {
      if tokens[0] == "not" {
        ParseSlashes(mysql, 3, tokens[1..]);
        var r := Parse(mysql, 3, tokens[1..]);
        if r.Parsed? && Condition(mysql, r.value).Ok? {
          ConditionSlashes(mysql, r.value);
          Wrapped("not(", Condition(mysql, r.value).value, ")");
        }
      } else {
        PrimarySlashes(mysql, tokens);
        var r := Primary(mysql, tokens);
        if r.Parsed? {
          CastsSlashes(r.value, r.rest);
        }
      }
    }
  }

  lemma {:induction false} PrimarySlashes(mysql: bool, tokens: seq<string>)
    requires |tokens| > 0
    ensures Within(Primary(mysql, tokens), tokens)
    decreases |tokens|, 0
  {
    if tokens[0] == "(" {
      ParseSlashes(mysql, 0, tokens[1..]);
      var r := Parse(mysql, 0, tokens[1..]);
      if r.Parsed? && At(r.rest, ")") {
        TailSlashes(r.rest, 1);
      }
    } else if tokens[0] == "array" && At(tokens[1..], "[") {
      TailSlashes(tokens[1..], 1);
      ApplicationSlashes(mysql, "array", "]", tokens[2..]);
    } else if At(tokens[1..], "(") {
      TailSlashes(tokens[1..], 1);
      ApplicationSlashes(mysql, tokens[0], ")", tokens[2..]);
    }
  }

  lemma {:induction false} ApplicationSlashes(mysql: bool, name: string, end: string, tokens: seq<string>)
    ensures var r := Application(mysql, name, end, tokens);
      r.Parsed? ==> Slashes(r.value) + SlashesIn(r.rest) <= Slashes(name) + SlashesIn(tokens)
    decreases |tokens|, 5
  {
    ListSlashes(mysql, end, tokens);
    var r := List(mysql, end, tokens);
    if r.Items? {
      Applied(name, r.items);
    }
  }

  lemma {:induction false} ListSlashes(mysql: bool, end: string, tokens: seq<string>)
    ensures ListWithin(List(mysql, end, tokens), tokens)
    decreases |tokens|, 4, 0
  {
    if At(tokens, end) {
      TailSlashes(tokens, 1);
    } else {
      ItemsSlashes(mysql, end, tokens);
    }
  }

  lemma {:induction false} ItemsSlashes(mysql: bool, end: string, tokens: seq<string>)
    ensures ListWithin(ListItems(mysql, end, tokens), tokens)
    decreases |tokens|, 3
  {
    ParseSlashes(mysql, 0, tokens);
    var r := Parse(mysql, 0, tokens);
    if r.Parsed? && r.rest != [] {
      TailSlashes(r.rest, 1);
      assert [r.value][1..] == [];
      if !At(r.rest, end) && At(r.rest, ",") {
        ItemsSlashes(mysql, end, r.rest[1..]);
        var more := ListItems(mysql, end, r.rest[1..]);
        if more.Items? {
          assert ([r.value] + more.items)[1..] == more.items;
        }
      }
    }
  }

  /** A canonical string holds no more backslashes than its text. */
  lemma CanonicalSlashes(mysql: bool, sql: string)
    ensures Canonical(mysql, sql).Ok? ==> Slashes(Canonical(mysql, sql).value) <= Slashes(sql)
  {
    if Canonical(mysql, sql).Ok? {
      LexSlashes(sql);
      ParseSlashes(mysql, 0, Lex(sql).value);
      ConditionSlashes(mysql, Parse(mysql, 0, Lex(sql).value).value);
    }
  }

  // ----- decoding -----

  lemma {:induction false} BodySlashes(s: string)
    ensures var body := LiteralBody(s); body.Body? ==> Slashes(body.content) + Slashes(body.rest) <= Slashes(s)
  {
    if s != [] && LiteralBody(s).Body? {
      if s[0] == '\\' {
        BodySlashes(s[2..]);
        SlashesConcat([EscapeValue(s[1]).value], LiteralBody(s[2..]).content);
        assert Slashes(s) == 1 + Slashes(s[1..]) && s[1..][1..] == s[2..];
        assert [EscapeValue(s[1]).value][1..] == [];
      } else if s[0] != '\'' {
        BodySlashes(s[1..]);
        SlashesConcat(s[..1], LiteralBody(s[1..]).content);
        assert s[..1][1..] == [];
      } else if |s| > 1 && s[1] == '\'' {
        BodySlashes(s[2..]);
        SlashesConcat("'", LiteralBody(s[2..]).content);
        assert s[1..][1..] == s[2..] && "'"[1..] == [];
      }
    }
  }

  lemma {:induction false} QuoteSlashes(content: string)
    ensures Slashes(Quote(content)) == Slashes(content) == Slashes(Doubled(content))
  {
    DoubledSlashes(content);
    Wrapped("'", Doubled(content), "'");
  }

  lemma {:induction false} DoubledSlashes(content: string)
    ensures Slashes(Doubled(content)) == Slashes(content)
  {
    if content != [] {
      DoubledSlashes(content[1..]);
      var front := if content[0] == '\'' then "''" else [content[0]];
      SlashesConcat(front, Doubled(content[1..]));
      assert "''"[1..] == "'" && "'"[1..] == "" && [content[0]][1..] == [];
    }
  }

  lemma {:induction false} LiteralsSlashes(sql: string)
    ensures Literals(sql).Ok? ==> Slashes(Literals(sql).value) <= Slashes(sql)
    decreases |sql|
  {
    if sql != [] && Literals(sql).Ok? {
      if sql[0] != '\'' {
        LiteralsSlashes(sql[1..]);
        SlashesConcat(sql[..1], Literals(sql[1..]).value);
        assert sql[..1][1..] == [];
      } else {
        var body := LiteralBody(sql[1..]);
        BodySlashes(sql[1..]);
        LiteralsSlashes(body.rest);
        QuoteSlashes(body.content);
        SlashesConcat(Quote(body.content), Literals(body.rest).value);
      }
    }
  }

  /** Decoding fails or loses a backslash. */
  predicate Loses(sql: string) { Literals(sql).Ok? ==> Slashes(Literals(sql).value) < Slashes(sql) }

  /** A backslash in a literal is lost with its escape. */
  lemma {:induction false} BodyLoses(content: string, s: string)
    requires '\\' in content
    ensures var whole := Doubled(content) + "'" + s;
      var body := LiteralBody(whole); body.Body? ==> Slashes(body.content) + Slashes(body.rest) < Slashes(whole)
  {
    var whole := Doubled(content) + "'" + s;
    if content[0] == '\\' {
      assert whole[0] == '\\';
      if LiteralBody(whole).Body? {
        var c := EscapeValue(whole[1]).value;
        BodySlashes(whole[2..]);
        SlashesConcat([c], LiteralBody(whole[2..]).content);
        assert whole[1..][1..] == whole[2..] && [c][1..] == [];
      }
    } else {
      BodyLoses(content[1..], s);
      var front := if content[0] == '\'' then "''" else [content[0]];
      var tail := Doubled(content[1..]) + "'" + s;
      assert whole == front + tail && whole[|front|..] == tail;
      assert whole[0] == front[0] && (|front| == 2 ==> whole[1] == front[1]);
      SlashesConcat(front, tail);
      if LiteralBody(whole).Body? {
        SlashesConcat([content[0]], LiteralBody(tail).content);
        assert [content[0]][1..] == [] && "''"[1..] == "'" && "'"[1..] == "";
        assert whole[..1] == [content[0]];
      }
    }
  }

  lemma QuotedLoses(content: string, s: string)
    requires '\\' in content
    ensures Loses(Quote(content) + s)
  {
    var whole := Quote(content) + s;
    var inside := Doubled(content) + "'" + s;
    assert whole[0] == '\'' && whole[1..] == inside;
    BodyLoses(content, s);
    if Literals(whole).Ok? {
      var body := LiteralBody(inside);
      LiteralsSlashes(body.rest);
      QuoteSlashes(body.content);
      SlashesConcat(Quote(body.content), Literals(body.rest).value);
    }
  }

  lemma {:induction false} OutsideKept(w: string, s: string)
    requires '\'' !in w
    ensures Literals(w + s) == Append(w, Literals(s))
  {
    if w == [] {
      assert w + s == s;
      assert Literals(s).Ok? ==> "" + Literals(s).value == Literals(s).value;
    } else {
      assert (w + s)[1..] == w[1..] + s && (w + s)[..1] == [w[0]];
      OutsideKept(w[1..], s);
      AppendAppend([w[0]], w[1..], Literals(s));
      assert [w[0]] + w[1..] == w;
    }
  }

  lemma OutsideLoses(w: string, s: string)
    requires '\'' !in w && Loses(s)
    ensures Loses(w + s)
  {
    OutsideKept(w, s);
    SlashesConcat(w, s);
    if Literals(s).Ok? {
      SlashesConcat(w, Literals(s).value);
    }
  }

  /** The doubled spelling of one character. */
  function DoubledChar(c: char): string { if c == '\'' then "''" else [c] }

  lemma BodyNext(c: char, tail: string)
    requires c != '\\' && (c == '\'' || tail != [])
    ensures LiteralBody(DoubledChar(c) + tail) == Push([c], LiteralBody(tail))
  {
    var whole := DoubledChar(c) + tail;
    assert whole[|DoubledChar(c)|..] == tail && whole[0] == c && whole[..1] == [c];
    if c == '\'' {
      assert whole[1] == c;
    }
  }

  lemma DoubledNext(content: string, s: string)
    requires content != []
    ensures Doubled(content) + "'" + s == DoubledChar(content[0]) + (Doubled(content[1..]) + "'" + s)
  {
    assert Doubled(content) == DoubledChar(content[0]) + Doubled(content[1..]);
  }

  lemma PlainEnd(s: string)
    requires !StartsWith(s, '\'')
    ensures LiteralBody("'" + s) == Body("", s)
  {
    var whole := "'" + s;
    assert whole[1..] == s;
  }

  lemma {:induction false} PlainBody(content: string, s: string)
    requires '\\' !in content && !StartsWith(s, '\'')
    ensures LiteralBody(Doubled(content) + "'" + s) == Body(content, s)
  {
    if content == [] {
      PlainEnd(s);
      assert Doubled(content) + "'" + s == "'" + s;
    } else {
      DoubledNext(content, s);
      PlainBody(content[1..], s);
      BodyNext(content[0], Doubled(content[1..]) + "'" + s);
      assert [content[0]] + content[1..] == content;
    }
  }

  lemma QuotedKept(content: string, s: string)
    requires '\\' !in content && !StartsWith(s, '\'')
    ensures Literals(Quote(content) + s) == Append(Quote(content), Literals(s))
  {
    var whole := Quote(content) + s;
    PlainBody(content, s);
    assert whole[0] == '\'' && whole[1..] == Doubled(content) + "'" + s;
  }

  // ----- terms -----

  /** No literal of the term holds a backslash. */
  predicate Unescaped(t: Term)
    decreases t
  {
    match t case Word(_) => true case Quoted(content) => '\\' !in content case Node(_, args) => AllUnescaped(args)
  }

  predicate AllUnescaped(args: seq<Term>)
    decreases args
  {
    args == [] || (Unescaped(args[0]) && AllUnescaped(args[1..]))
  }

  lemma NoQuoteInWord(w: string)
    requires IsName(w) || IsNumeral(w) || w in SYMBOLS || w in RESERVED
    ensures '\'' !in w
  {
    if IsNumeral(w) {
      NumeralChars(w);
    } else if IsName(w) {
      NameChars(w);
    } else if w in SYMBOLS {
      SymbolChars(w);
    } else {
      ReservedChars(w);
    }
  }

  lemma {:induction false} TermKept(t: Term, s: string)
    requires CanonicalTerm(t) && Unescaped(t) && !StartsWith(s, '\'')
    ensures Literals(Show(t) + s) == Append(Show(t), Literals(s))
    decreases t
  {
    match t {
      case Word(text) =>
        NoQuoteInWord(text);
        OutsideKept(text, s);
      case Quoted(content) => QuotedKept(content, s);
      case Node(head, args) =>
        var inner := Join(ShowAll(args), ",");
        Enclosed(head, inner, s);
        NoQuoteInWord(head);
        HeadOutside(head, inner + (")" + s));
        ArgsKept(args, ")" + s);
        OutsideKept(")", s);
        AppendAppend(inner, ")", Literals(s));
        AppendAppend(head + "(", inner + ")", Literals(s));
        assert head + "(" + (inner + ")") == Show(t);
    }
  }

  lemma HeadOutside(head: string, s: string)
    requires '\'' !in head
    ensures Literals(head + "(" + s) == Append(head + "(", Literals(s))
  {
    OutsideKept(head + "(", s);
  }

  lemma {:induction false} ArgsKept(args: seq<Term>, s: string)
    requires AllCanonical(args) && AllUnescaped(args) && !StartsWith(s, '\'')
    ensures Literals(Join(ShowAll(args), ",") + s) == Append(Join(ShowAll(args), ","), Literals(s))
    decreases args
  {
    if args == [] {
      OutsideKept("", s);
    } else if |args| == 1 {
      TermKept(args[0], s);
    } else {
      var more := Join(ShowAll(args[1..]), ",");
      assert ShowAll(args)[1..] == ShowAll(args[1..]);
      Separated(Show(args[0]), more, s);
      TermKept(args[0], "," + (more + s));
      OutsideKept(",", more + s);
      ArgsKept(args[1..], s);
      AppendAppend(",", more, Literals(s));
      AppendAppend(Show(args[0]), "," + more, Literals(s));
      assert Show(args[0]) + ("," + more) == Join(ShowAll(args), ",");
    }
  }

  lemma KeptLoses(front: string, s: string)
    requires Literals(front + s) == Append(front, Literals(s)) && Loses(s)
    ensures Loses(front + s)
  {
    SlashesConcat(front, s);
    if Literals(s).Ok? {
      SlashesConcat(front, Literals(s).value);
    }
  }

  lemma {:induction false} TermLoses(t: Term, s: string)
    requires CanonicalTerm(t) && !Unescaped(t)
    ensures Loses(Show(t) + s)
    decreases t
  {
    match t {
      case Quoted(content) => QuotedLoses(content, s);
      case Node(head, args) =>
        var inner := Join(ShowAll(args), ",");
        Enclosed(head, inner, s);
        NoQuoteInWord(head);
        ArgsLose(args, ")" + s);
        OutsideLoses(head + "(", inner + (")" + s));
    }
  }

  lemma {:induction false} ArgsLose(args: seq<Term>, s: string)
    requires AllCanonical(args) && !AllUnescaped(args)
    ensures Loses(Join(ShowAll(args), ",") + s)
    decreases args
  {
    if |args| == 1 {
      TermLoses(args[0], s);
    } else {
      var more := Join(ShowAll(args[1..]), ",");
      assert ShowAll(args)[1..] == ShowAll(args[1..]);
      Separated(Show(args[0]), more, s);
      if !Unescaped(args[0]) {
        TermLoses(args[0], "," + (more + s));
      } else {
        ArgsLose(args[1..], s);
        OutsideLoses(",", more + s);
        TermKept(args[0], "," + (more + s));
        KeptLoses(Show(args[0]), "," + (more + s));
      }
    }
  }

  // ----- the exact condition -----

  /**
   * For every expression of the grammar: its canonical string, read as MySQL text, gives itself if
   * and only if no literal of it holds a backslash.
   */
  lemma MysqlFixedExactly(e: Src)
    requires WellFormed(e)
    ensures var t := Conditioned(true, Normalize(true, e));
      MysqlCanonical(Show(t)) == Ok(Show(t)) <==> Unescaped(t)
  {
    var t := Conditioned(true, Normalize(true, e));
    CanonicalTermIsFixed(true, e);
    assert Show(t) + "" == Show(t);
    if Unescaped(t) {
      TermKept(t, "");
    } else {
      TermLoses(t, "");
      if Literals(Show(t)).Ok? {
        CanonicalSlashes(true, Literals(Show(t)).value);
      }
    }
  }
}
