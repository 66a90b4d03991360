/**
 * Canonical strings read back uniquely: tokenizing the string of a term gives the term's own
 * tokens, two terms with one string are the same term, and the parser's tests on strings
 * are exactly tests on terms.
 */
module CanonicalStrings {
  import opened Outcomes
  import opened Text
  import opened Decimal
  import opened Tokenizer
  import opened ExpressionParser
  import opened Expressions

  // ----- one token at a time -----

  /** No token can run on into `s`. */
  predicate Ends(s: string) { s == [] || (!IsWordChar(s[0]) && s[0] != '\'') }

  lemma {:induction false} WordWidthAt(w: string, s: string)
    requires forall i :: 0 <= i < |w| ==> IsWordChar(w[i])
    requires Ends(s)
    ensures WordWidth(w + s) == |w|
  {
    if w == [] {
      assert w + s == s;
    } else {
      assert (w + s)[1..] == w[1..] + s;
      WordWidthAt(w[1..], s);
    }
  }

  lemma LexWordAt(w: string, s: string)
    requires IsWordToken(w) && Ends(s)
    ensures Lex(w + s) == Prepend([w], Lex(s))
  {
    WordWidthAt(w, s);
    var text := w + s;
    assert text[..|w|] == w && text[|w|..] == s;
    assert StartsWith(text[1..], '-') ==> |w| > 1 && w[1] == '-';
    assert w[0] == '-' && |w| > 1 && w[1] == '-' ==> "--" <= w;
    assert First(text) == Token(w, |w|);
  }

  /** A one-character symbol that the next character does not extend. */
  lemma LexSymbolAt(c: char, s: string)
    requires IsSpecial(c) && (s == [] || !IsPair([c, s[0]]))
    ensures Lex([c] + s) == Prepend([[c]], Lex(s))
  {
    var text := [c] + s;
    assert text[..1] == [c] && text[1..] == s;
    assert s != [] ==> text[..2] == [c, s[0]];
    assert First(text) == Token([c], 1);
  }

  lemma LexPairAt(symbol: string, s: string)
    requires IsPair(symbol)
    ensures Lex(symbol + s) == Prepend([symbol], Lex(s))
  {}

  lemma {:induction false} QuoteWidthAt(content: string, s: string)
    requires !StartsWith(s, '\'')
    ensures QuoteWidth(Doubled(content) + "'" + s, '\'') == Some(|Doubled(content)| + 1)
  {
    var text := Doubled(content) + "'" + s;
    if content == [] {
      assert text == "'" + s;
    } else {
      QuoteWidthAt(content[1..], s);
      var tail := Doubled(content[1..]) + "'" + s;
      if content[0] == '\'' {
        assert text == "''" + tail;
        assert text[2..] == tail;
      } else {
        assert text == [content[0]] + tail;
        assert text[1..] == tail;
      }
    }
  }

  lemma LexQuoteAt(content: string, s: string)
    requires !StartsWith(s, '\'')
    ensures Lex(Quote(content) + s) == Prepend([Quote(content)], Lex(s))
  {
    QuoteWidthAt(content, s);
    var text := Quote(content) + s;
    var n := |Quote(content)|;
    assert text[1..] == Doubled(content) + "'" + s;
    assert text[..n] == Quote(content) && text[n..] == s;
    assert First(text) == Token(Quote(content), n);
  }

  lemma {:induction false} DoubledPlain(c: string)
    requires '\'' !in c
    ensures Doubled(c) == c
  {
    if c != [] {
      DoubledPlain(c[1..]);
      assert c == [c[0]] + c[1..];
    }
  }

  lemma {:induction false} DoubledInjective(a: string, b: string)
    requires Doubled(a) == Doubled(b)
    ensures a == b
  {
    if a == [] || b == [] {
    } else {
      assert a[0] == Doubled(a)[0] && b[0] == Doubled(b)[0];
      assert Doubled(a)[if a[0] == '\'' then 2 else 1..] == Doubled(a[1..]);
      assert Doubled(b)[if b[0] == '\'' then 2 else 1..] == Doubled(b[1..]);
      DoubledInjective(a[1..], b[1..]);
      assert a == [a[0]] + a[1..] && b == [b[0]] + b[1..];
    }
  }

  lemma QuoteInjective(a: string, b: string)
    requires Quote(a) == Quote(b)
    ensures a == b
  {
    assert Quote(a)[1..|Quote(a)| - 1] == Doubled(a) && Quote(b)[1..|Quote(b)| - 1] == Doubled(b);
    DoubledInjective(a, b);
  }

  // ----- the tokens of a term -----

  function TermTokens(t: Term): (r: seq<string>)
    ensures |r| > 0
    decreases t
  {
    match t
    case Word(text) => [text]
    case Quoted(content) => [Quote(content)]
    case Node(head, args) => [head, "("] + ArgTokens(args) + [")"]
  }

  function ArgTokens(args: seq<Term>): seq<string>
    decreases args
  {
    if args == [] then []
    else if |args| == 1 then TermTokens(args[0])
    else TermTokens(args[0]) + [","] + ArgTokens(args[1..])
  }

  predicate Closes(s: string) { s == [] || s[0] in {',', ')'} }

  lemma ReservedIsWord(w: string)
    requires w in RESERVED
    ensures IsWordToken(w)
  {
    assert forall i :: 0 <= i < |w| ==> 'a' <= w[i] <= 'z';
    assert ToLower(w) == w;
    assert w[0] != '-';
  }

  /** A numeral is made of digits, a sign and a point. */
  lemma NumeralShape(w: string)
    requires IsNumeral(w)
    ensures |w| > 0 && (IsDigit(w[0]) || w[0] == '-')
    ensures forall i :: 0 <= i < |w| ==> IsDigit(w[i]) || w[i] == '.' || (i == 0 && w[i] == '-')
  {
    var s := Unsigned(w);
    var n := Point(s);
    assert forall i :: 0 <= i < n ==> s[i] == s[..n][i];
    assert forall i :: n < i < |s| ==> s[i] == s[n + 1..][i - n - 1];
    assert forall i :: 0 <= i < |w| ==> i == 0 || w[i] == (if s == w then s[i] else s[i - 1]);
  }

  lemma NumeralIsWord(w: string)
    requires IsNumeral(w)
    ensures IsWordToken(w)
  {
    NumeralShape(w);
    assert ToLower(w) == w;
    assert w[0] == '-' ==> |w| > 1 && IsDigit(w[1]);
  }

  lemma LexHeadAt(head: string, s: string)
    requires IsName(head) || head in SYMBOLS || head in RESERVED
    ensures Lex(head + "(" + s) == Prepend([head, "("], Lex(s))
  {
    var after := "(" + s;
    assert head + "(" + s == head + after;
    LexSymbolAt('(', s);
    if head in SYMBOLS {
      if |head| == 1 {
        assert head == [head[0]];
        LexSymbolAt(head[0], after);
      } else {
        LexPairAt(head, after);
      }
    } else {
      if head in RESERVED { ReservedIsWord(head); }
      LexWordAt(head, after);
    }
    PrependPrepend([head], ["("], Lex(s));
    assert [head] + ["("] == [head, "("];
  }

  lemma {:induction false} LexShow(t: Term, s: string)
    requires CanonicalTerm(t) && Closes(s)
    ensures Lex(Show(t) + s) == Prepend(TermTokens(t), Lex(s))
    decreases t
  {
    match t {
      case Word(text) =>
        if IsNumeral(text) { NumeralIsWord(text); }
        LexWordAt(text, s);
      case Quoted(content) =>
        LexQuoteAt(content, s);
      case Node(head, args) =>
        var inner := Join(ShowAll(args), ",");
        LexShowArgs(args, ")" + s);
        LexSymbolAt(')', s);
        LexHeadAt(head, inner + (")" + s));
        Enclosed(head, inner, s);
        PrependPrepend(ArgTokens(args), [")"], Lex(s));
        PrependPrepend([head, "("], ArgTokens(args) + [")"], Lex(s));
        assert [head, "("] + (ArgTokens(args) + [")"]) == TermTokens(t);
    }
  }

  lemma Enclosed(head: string, inner: string, s: string)
    ensures head + "(" + inner + ")" + s == head + "(" + (inner + (")" + s))
  {}

  lemma Separated(first: string, more: string, s: string)
    ensures first + "," + more + s == first + ("," + (more + s))
  {}

  lemma {:induction false} LexShowArgs(args: seq<Term>, s: string)
    requires AllCanonical(args) && s != [] && s[0] == ')'
    ensures Lex(Join(ShowAll(args), ",") + s) == Prepend(ArgTokens(args), Lex(s))
    decreases args
  {
    if args == [] {
      assert "" + s == s;
      assert Lex(s).Ok? ==> [] + Lex(s).value == Lex(s).value;
    } else if |args| == 1 {
      LexShow(args[0], s);
    } else {
      var more := Join(ShowAll(args[1..]), ",");
      assert ShowAll(args)[1..] == ShowAll(args[1..]);
      Separated(Show(args[0]), more, s);
      LexShow(args[0], "," + (more + s));
      LexSymbolAt(',', more + s);
      LexShowArgs(args[1..], s);
      PrependPrepend([","], ArgTokens(args[1..]), Lex(s));
      PrependPrepend(TermTokens(args[0]), [","] + ArgTokens(args[1..]), Lex(s));
      assert TermTokens(args[0]) + ([","] + ArgTokens(args[1..])) == ArgTokens(args);
    }
  }

  lemma LexCanonical(t: Term)
    requires CanonicalTerm(t)
    ensures Lex(Show(t)) == Ok(TermTokens(t))
  {
    assert Show(t) + "" == Show(t);
    LexShow(t, "");
    assert TermTokens(t) + [] == TermTokens(t);
  }

  // ----- unique readability -----

  predicate ClosesTokens(rest: seq<string>) { rest == [] || rest[0] in {",", ")"} }

  /** What distinguishes the first token of each kind of term. */
  lemma FirstToken(t: Term)
    requires CanonicalTerm(t)
    ensures var w := TermTokens(t)[0];
      && w != "(" && w != "," && w != ")" && w != "" && (t.Quoted? <==> w[0] == '\'')
  {
    match t {
      case Word(text) => WordShape(text);
      case Quoted(content) => assert Quote(content)[0] == '\'';
      case Node(head, _) => WordShape(head);
    }
  }

  lemma WordShape(w: string)
    requires IsName(w) || IsNumeral(w) || w in SYMBOLS || w in RESERVED
    ensures w != "(" && w != "," && w != ")" && w != "" && w[0] != '\''
  {
    HeadChars(w);
    if IsNumeral(w) {
      NumeralShape(w);
    } else if IsName(w) {
      assert IsWordChar(w[0]);
    }
  }

  lemma {:induction false} TokensInjective(a: Term, ra: seq<string>, b: Term, rb: seq<string>)
    requires CanonicalTerm(a) && CanonicalTerm(b) && ClosesTokens(ra) && ClosesTokens(rb)
    requires TermTokens(a) + ra == TermTokens(b) + rb
    ensures a == b && ra == rb
    decreases a
  {
    var tokens := TermTokens(a) + ra;
    assert tokens[0] == TermTokens(a)[0] == TermTokens(b)[0];
    FirstToken(a);
    FirstToken(b);
    assert tokens[|TermTokens(a)|..] == ra && tokens[|TermTokens(b)|..] == rb;
    if a.Quoted? {
      QuoteInjective(a.content, b.content);
    } else if a.Word? || b.Word? {
      assert |tokens| > 1 ==> tokens[1] == (if a.Node? then "(" else ra[0]) == (if b.Node? then "(" else rb[0]);
    } else {
      var ta, tb := ArgTokens(a.args) + ([")"] + ra), ArgTokens(b.args) + ([")"] + rb);
      assert tokens[2..] == ta && tokens[2..] == tb;
      ArgsInjective(a.args, [")"] + ra, b.args, [")"] + rb);
      assert ra == ([")"] + ra)[1..] && rb == ([")"] + rb)[1..];
    }
  }

  lemma {:induction false} ArgsInjective(a: seq<Term>, ra: seq<string>, b: seq<Term>, rb: seq<string>)
    requires AllCanonical(a) && AllCanonical(b)
    requires |ra| > 0 && ra[0] == ")" && |rb| > 0 && rb[0] == ")"
    requires ArgTokens(a) + ra == ArgTokens(b) + rb
    ensures a == b && ra == rb
    decreases a
  {
    var tokens := ArgTokens(a) + ra;
    if a == [] || b == [] {
      assert a != [] ==> tokens[0] == TermTokens(a[0])[0];
      assert b != [] ==> tokens[0] == TermTokens(b[0])[0];
      if a != [] { FirstToken(a[0]); }
      if b != [] { FirstToken(b[0]); }
      assert [] + ra == ra && [] + rb == rb;
    } else {
      var sa := if |a| == 1 then ra else [","] + (ArgTokens(a[1..]) + ra);
      var sb := if |b| == 1 then rb else [","] + (ArgTokens(b[1..]) + rb);
      assert tokens == TermTokens(a[0]) + sa && tokens == TermTokens(b[0]) + sb;
      TokensInjective(a[0], sa, b[0], sb);
      if |a| > 1 {
        assert sa[1..] == ArgTokens(a[1..]) + ra && sb[1..] == ArgTokens(b[1..]) + rb;
        ArgsInjective(a[1..], ra, b[1..], rb);
      }
      assert a == [a[0]] + a[1..] && b == [b[0]] + b[1..];
    }
  }

  /** Two canonical terms with the same string are the same term. */
  lemma ShowInjective(a: Term, b: Term)
    requires CanonicalTerm(a) && CanonicalTerm(b) && Show(a) == Show(b)
    ensures a == b
  {
    LexCanonical(a);
    LexCanonical(b);
    assert TermTokens(a) + [] == TermTokens(b) + [];
    TokensInjective(a, [], b, []);
  }

  // ----- tests on strings are tests on terms -----

  lemma NumeralChars(w: string)
    requires IsNumeral(w)
    ensures |w| > 0 && '(' !in w && ',' !in w && '\'' !in w && w[0] != '\''
  {
    NumeralShape(w);
  }

  lemma NameChars(w: string)
    requires IsName(w)
    ensures |w| > 0 && '(' !in w && ',' !in w && '\'' !in w && w[0] != '\'' && w[0] != '0'
  {
    assert forall i :: 0 <= i < |w| ==> IsWordChar(w[i]);
  }

  lemma SymbolChars(w: string)
    requires w in SYMBOLS
    ensures |w| > 0 && '(' !in w && ',' !in w && '\'' !in w && w[0] != '\'' && w[0] != '0'
  {}

  lemma ReservedChars(w: string)
    requires w in RESERVED
    ensures |w| > 0 && '(' !in w && ',' !in w && '\'' !in w && w[0] != '\'' && w[0] != '0'
  {}

  lemma HeadChars(w: string)
    requires IsName(w) || IsNumeral(w) || w in SYMBOLS || w in RESERVED
    ensures |w| > 0 && '(' !in w && ',' !in w && w[0] != '\''
    ensures w[0] == '0' ==> IsNumeral(w)
  {
    if IsNumeral(w) {
      NumeralChars(w);
    } else if IsName(w) {
      NameChars(w);
    } else if w in SYMBOLS {
      SymbolChars(w);
    } else {
      ReservedChars(w);
    }
  }

  lemma PrefixSplit(p: string, q: string, r: string)
    ensures p + q <= p + r <==> q <= r
  {
    assert (p + r)[|p|..] == r && (p + q)[|p|..] == q;
    if p + q <= p + r {
      assert (p + r)[..|p + q|][|p|..] == q;
    }
  }

  lemma Middle(p: string, m: string, q: string)
    ensures (p + m + q)[|p|..|p + m + q| - |q|] == m
  {}

  /** The character at a position, or none past the end. */
  function CharAt(s: string, i: nat): Option<char> { if i < |s| then Some(s[i]) else None }

  lemma PrefixAt(p: string, s: string, i: nat)
    ensures p <= s && i < |p| ==> CharAt(s, i) == CharAt(p, i)
  {}

  lemma Absent(c: char, s: string, i: nat)
    requires c !in s
    ensures CharAt(s, i) != Some(c)
  {}

  /** Words without a parenthesis are told apart by the text before the first one. */
  lemma SameHead(w: string, head: string, rest: string)
    requires '(' !in w && '(' !in head
    ensures w + "(" <= head + "(" + rest <==> w == head
  {
    var s := head + "(" + rest;
    assert CharAt(s, |head|) == Some('(');
    assert |w| < |head| ==> CharAt(s, |w|) == CharAt(head, |w|);
    Absent('(', head, |w|);
    Absent('(', w, |head|);
    PrefixAt(w + "(", s, |w|);
    PrefixAt(w, s, |head|);
    if w + "(" <= s {
      assert w <= s;
      assert |w| == |head| && s[..|w|] == w && s[..|head|] == head;
    }
  }

  lemma ShowHead(t: Term, w: string)
    requires CanonicalTerm(t)
    requires w in SYMBOLS || w in RESERVED
    ensures w + "(" <= Show(t) <==> t.Node? && t.head == w
  {
    HeadChars(w);
    var s := Show(t);
    match t {
      case Word(text) =>
        HeadChars(text);
        Absent('(', text, |w|);
        assert (w + "(")[|w|] == '(';
      case Quoted(content) =>
        assert s[0] == '\'';
      case Node(head, args) =>
        HeadChars(head);
        SameHead(w, head, Join(ShowAll(args), ",") + ")");
        assert s == head + "(" + (Join(ShowAll(args), ",") + ")");
    }
  }

  lemma ShowPair(head: string, a: Term, b: Term)
    ensures Show(Node(head, [a, b])) == head + "(" + Show(a) + "," + Show(b) + ")"
  {
    var shown := ShowAll([a, b]);
    assert shown == [Show(a), Show(b)] && shown[1..] == [Show(b)];
    assert Join(shown, ",") == Show(a) + "," + Show(b);
  }

  /** An operand followed by a comma begins with "0," only when it is the zero literal. */
  lemma ZeroFirst(a: Term, rest: string)
    requires CanonicalTerm(a)
    ensures "0," <= Show(a) + ("," + rest) <==> IsZero(a)
  {
    match a {
      case Word(text) =>
        HeadChars(text);
        ZeroWord(text, rest);
      case Quoted(_) => NotZeroAt(Show(a), rest);
      case Node(head, _) =>
        HeadChars(head);
        NotZeroAt(Show(a), rest);
    }
  }

  lemma NotZeroAt(shown: string, rest: string)
    requires shown != "" && shown[0] != '0'
    ensures !("0," <= shown + ("," + rest))
  {
    assert (shown + ("," + rest))[0] == shown[0];
  }

  lemma ZeroWord(text: string, rest: string)
    requires text != "" && ',' !in text
    ensures "0," <= text + ("," + rest) <==> text == "0"
  {
    var s := text + ("," + rest);
    assert text[0] == s[0];
    assert |text| > 1 ==> s[1] == text[1];
    assert text == "0" ==> s[1] == ',';
  }

  /** A comma followed by an operand ends with ",0" only when the operand is the zero literal. */
  lemma ZeroLast(front: string, b: Term)
    requires CanonicalTerm(b)
    ensures HasSuffix(front + "," + Show(b) + ")", ",0)") <==> IsZero(b)
  {
    var s := front + "," + Show(b) + ")";
    var shown := Show(b);
    assert s[|s| - 2] == (front + "," + shown)[|s| - 2];
    match b {
      case Word(text) =>
        HeadChars(text);
        assert s[|s| - 2] == text[|text| - 1];
        assert |text| > 1 ==> s[|s| - 3] == text[|text| - 2];
        if IsZero(b) {
          assert s[|s| - 3..] == ",0)";
        }
      case Quoted(_) => assert s[|s| - 2] == '\'';
      case Node(_, _) => assert s[|s| - 2] == ')';
    }
  }

  predicate ZeroLeft(op: string, t: Term) { t.Node? && t.head == op && |t.args| == 2 && IsZero(t.args[0]) }

  predicate ZeroRight(op: string, t: Term) { t.Node? && t.head == op && |t.args| == 2 && IsZero(t.args[1]) }

  /** The test for a zero on the left, and what it slices out. */
  lemma ZeroLeftTest(op: string, t: Term)
    requires CanonicalTerm(t) && op in SYMBOLS
    ensures op + "(0," <= Show(t) <==> ZeroLeft(op, t)
    ensures ZeroLeft(op, t) ==>
      |op| + 4 <= |Show(t)| && Show(t)[|op| + 3..|Show(t)| - 1] == Show(t.args[1])
  {
    ShowHead(t, op);
    var s, front := Show(t), op + "(";
    assert op + "(0," == front + "0,";
    if t.Node? && t.head == op {
      var a, b := t.args[0], t.args[1];
      assert t.args == [a, b];
      ShowPair(op, a, b);
      var rest := Show(b) + ")";
      Regroup(op, Show(a), Show(b));
      PrefixSplit(front, "0,", Show(a) + ("," + rest));
      ZeroFirst(a, rest);
      if IsZero(a) {
        Middle(op + "(0,", Show(b), ")");
      }
    } else {
      assert front + "0," <= s ==> front <= s;
    }
  }

  lemma Regroup(op: string, a: string, b: string)
    ensures op + "(" + a + "," + b + ")" == (op + "(") + (a + ("," + (b + ")")))
    ensures a == "0" ==> op + "(" + a + "," + b + ")" == (op + "(0,") + b + ")"
  {}

  /** The test for a zero on the right, and what it slices out. */
  lemma ZeroRightTest(op: string, t: Term)
    requires CanonicalTerm(t) && op in SYMBOLS
    ensures op + "(" <= Show(t) && HasSuffix(Show(t), ",0)") <==> ZeroRight(op, t)
    ensures ZeroRight(op, t) ==>
      |op| + 4 <= |Show(t)| && Show(t)[|op| + 1..|Show(t)| - 3] == Show(t.args[0])
  {
    ShowHead(t, op);
    var s, front := Show(t), op + "(";
    if t.Node? && t.head == op {
      var a, b := t.args[0], t.args[1];
      assert t.args == [a, b] && AllCanonical([b]);
      ShowPair(op, a, b);
      ZeroLast(front + Show(a), b);
      if IsZero(b) {
        assert s == front + Show(a) + ",0)";
        Middle(front, Show(a), ",0)");
      }
    }
  }

  /** What `Condition` does with the string of a term, one rewriting at a time. */
  lemma ConditionStep(t: Term)
    requires CanonicalTerm(t)
    ensures Condition(true, Show(t)) ==
      if ZeroLeft("=", t) then Negated(Condition(true, Show(t.args[1])))
      else if ZeroRight("=", t) then Negated(Condition(true, Show(t.args[0])))
      else if ZeroLeft("!=", t) then Condition(true, Show(t.args[1]))
      else if ZeroRight("!=", t) then Condition(true, Show(t.args[0]))
      else Ok(Show(t))
  {
    ZeroLeftTest("=", t);
    ZeroRightTest("=", t);
    ZeroLeftTest("!=", t);
    ZeroRightTest("!=", t);
    assert "=" + "(0," == "=(0," && "=" + "(" == "=(";
    assert "!=" + "(0," == "!=(0," && "!=" + "(" == "!=(";
  }

  /** On the string of a term `Condition` never slices out of range, and rewrites it as `Conditioned` does. */
  lemma {:induction false} ConditionShow(mysql: bool, t: Term)
    requires CanonicalTerm(t)
    ensures Condition(mysql, Show(t)) == Ok(Show(Conditioned(mysql, t)))
    ensures CanonicalTerm(Conditioned(mysql, t))
    decreases t
  {
    if mysql {
      ConditionStep(t);
      if t.Node? && |t.args| == 2 {
        var a, b := t.args[0], t.args[1];
        assert t.args == [a, b] && AllCanonical([b]);
        ConditionShow(mysql, a);
        ConditionShow(mysql, b);
        ShowNot(Conditioned(mysql, a));
        ShowNot(Conditioned(mysql, b));
      }
    }
  }

  lemma ShowNot(t: Term)
    ensures Show(Node("not", [t])) == "not(" + Show(t) + ")"
  {}

  /** Rewriting a truth position twice changes nothing more. */
  lemma {:induction false} ConditionedIdempotent(mysql: bool, t: Term)
    ensures Conditioned(mysql, Conditioned(mysql, t)) == Conditioned(mysql, t)
    decreases t
  {
    if mysql && t.Node? && |t.args| == 2 {
      ConditionedIdempotent(mysql, t.args[0]);
      ConditionedIdempotent(mysql, t.args[1]);
    }
  }

  /** The test for `= ANY(ARRAY[...])` matches exactly that term and slices out exactly the array's items. */
  lemma AnyArrayExact(t: Term)
    requires CanonicalTerm(t)
    ensures IsAnyArray(Show(t)) <==> IsAnyOfArray(t)
    ensures IsAnyOfArray(t) ==>
      && |ANY_ARRAY| + 2 <= |Show(t)|
      && Show(t)[|ANY_ARRAY|..|Show(t)| - 2] == Join(ShowAll(t.args[0].args), ",")
  {
    ShowHead(t, "any");
    assert ANY_ARRAY == "any(" + "array(";
    if t.Node? && t.head == "any" {
      assert t.args == [t.args[0]];
      AnyArgument(t.args[0]);
    } else {
      assert ANY_ARRAY <= Show(t) ==> "any(" <= Show(t);
    }
  }

  lemma AnyPrefix(a: Term)
    ensures var s := Show(Node("any", [a]));
      s == "any(" + (Show(a) + ")") && (ANY_ARRAY <= s <==> "array(" <= Show(a))
  {
    var s, front := Show(Node("any", [a])), "any(";
    assert ShowAll([a]) == [Show(a)];
    assert s == front + (Show(a) + ")");
    assert ANY_ARRAY == front + "array(";
    PrefixSplit(front, "array(", Show(a) + ")");
    ClosedPrefix("array(", Show(a));
  }

  lemma AnyArgument(a: Term)
    requires CanonicalTerm(a)
    ensures var s := Show(Node("any", [a]));
      && (ANY_ARRAY <= s <==> a.Node? && a.head == "array")
      && (a.Node? && a.head == "array" ==>
            && HasSuffix(s, "))") && |ANY_ARRAY| + 2 <= |s|
            && s[|ANY_ARRAY|..|s| - 2] == Join(ShowAll(a.args), ","))
  {
    AnyPrefix(a);
    ShowHead(a, "array");
    if a.Node? && a.head == "array" {
      ArraySlice(ANY_ARRAY, Join(ShowAll(a.args), ","), Show(Node("any", [a])));
    }
  }

  lemma ArraySlice(front: string, inner: string, s: string)
    requires s == front + inner + "))"
    ensures front <= s && HasSuffix(s, "))") && |front| + 2 <= |s| && s[|front|..|s| - 2] == inner
  {}

  lemma ClosedPrefix(p: string, s: string)
    requires ')' !in p
    ensures p <= s + ")" <==> p <= s
  {
    Absent(')', p, |s|);
    assert CharAt(s + ")", |s|) == Some(')');
    if p <= s + ")" && |p| <= |s| {
      assert (s + ")")[..|p|] == p;
    }
  }
}
