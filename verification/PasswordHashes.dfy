/**
 * Argon2id hashes in PHC form (hasher/argon2id/argon2id.go): printing, strict reading, and the
 * limits on their parameters.
 */
module PasswordHashes {
  import opened Outcomes
  import opened Text
  import opened Decimal
  import opened Base64

  const VERSION: nat := 19

  /** Memory and iterations are 32-bit, parallelism is 8-bit, lengths are 32-bit. */
  datatype Options = Options(memory: nat, iterations: nat, parallelism: nat, saltLength: nat, keyLength: nat)

  predicate ValidOptions(o: Options) {
    && 1 <= o.iterations <= 1000
    && 1 <= o.parallelism < 256
    && 8 * o.parallelism <= o.memory <= 2097152
    && 8 <= o.saltLength <= 1024 && 16 <= o.keyLength <= 1024
  }

  // ----- splitting -----

  function Split(s: string, separator: char): (parts: seq<string>)
    ensures parts != []
  {
    if s == "" then [""]
    else
      var rest := Split(s[1..], separator);
      if s[0] == separator then [""] + rest else [[s[0]] + rest[0]] + rest[1..]
  }

  lemma {:induction false} SplitFirst(part: string, rest: string, separator: char)
    requires separator !in part
    ensures Split(part + [separator] + rest, separator) == [part] + Split(rest, separator)
  {
    var s := part + [separator] + rest;
    if part == "" {
      assert s[1..] == rest;
    } else {
      SplitFirst(part[1..], rest, separator);
      assert s[1..] == part[1..] + [separator] + rest;
      assert [part[0]] + part[1..] == part;
    }
  }

  lemma {:induction false} SplitNone(part: string, separator: char)
    requires separator !in part
    ensures Split(part, separator) == [part]
  {
    if part != "" {
      SplitNone(part[1..], separator);
      assert [part[0]] + part[1..] == part;
    }
  }

  predicate Free(parts: seq<string>, separator: char) { forall i :: 0 <= i < |parts| ==> separator !in parts[i] }

  lemma {:induction false} SplitJoin(parts: seq<string>, separator: char)
    requires parts != [] && Free(parts, separator)
    ensures Split(Join(parts, [separator]), separator) == parts
  {
    if |parts| == 1 {
      SplitNone(parts[0], separator);
    } else {
      SplitJoin(parts[1..], separator);
      SplitFirst(parts[0], Join(parts[1..], [separator]), separator);
      assert [parts[0]] + parts[1..] == parts;
    }
  }

  // ----- the text of a hash -----

  function Parameters(o: Options): string {
    "m=" + Format(o.memory) + ",t=" + Format(o.iterations) + ",p=" + Format(o.parallelism)
  }

  /** What is printed for the options, salt and key. */
  function Encode(o: Options, salt: seq<Byte>, key: seq<Byte>): string {
    "$argon2id$v=" + Format(VERSION) + "$" + Parameters(o) + "$" + Base64.Encode(salt) + "$" + Base64.Encode(key)
  }

  datatype Error = InvalidHash

  datatype Parsed = Parsed(options: Options, salt: seq<Byte>, key: seq<Byte>)

  function ParseUintField(field: string, prefix: string, bound: nat): Option<nat> {
    if |field| <= |prefix| || field[..|prefix|] != prefix then None else ParseUint(field[|prefix|..], bound)
  }

  function ParseOptions(text: string, saltLength: nat, keyLength: nat): Option<Options> {
    var params := Split(text, ',');
    if |params| != 3 then None
    else
      var memory, iterations, parallelism :=
        ParseUintField(params[0], "m=", 0x1_0000_0000), ParseUintField(params[1], "t=", 0x1_0000_0000), ParseUintField(params[2], "p=", 256);
      if memory.None? || iterations.None? || parallelism.None? then None
      else Some(Options(memory.value, iterations.value, parallelism.value, saltLength, keyLength))
  }

  function Parse(stored: string): Result<Parsed, Error> {
    var parts := Split(stored, '$');
    if |parts| != 6 || parts[0] != "" || parts[1] != "argon2id" then Err(InvalidHash)
    else if ParseUintField(parts[2], "v=", 0x1_0000_0000) != Some(VERSION) then Err(InvalidHash)
    else
      var salt, key := Decode(parts[4]), Decode(parts[5]);
      if salt.None? || key.None? then Err(InvalidHash)
      else
        var options := ParseOptions(parts[3], |salt.value|, |key.value|);
        if options.None? || !ValidOptions(options.value) then Err(InvalidHash)
        else Ok(Parsed(options.value, salt.value, key.value))
  }

  // ----- the round trip -----

  lemma ParseFormatted(prefix: string, n: nat, bound: nat)
    requires n < bound
    ensures ParseUintField(prefix + Format(n), prefix, bound) == Some(n)
  {
    ValueFormat(n);
    assert (prefix + Format(n))[|prefix|..] == Format(n);
  }

  predicate Plain(c: char) { IsDigit(c) || c == 'm' || c == 't' || c == 'p' || c == 'v' || c == '=' }

  lemma FieldFree(prefix: string, n: nat)
    requires forall i :: 0 <= i < |prefix| ==> Plain(prefix[i])
    ensures ',' !in prefix + Format(n) && '$' !in prefix + Format(n)
  {}

  lemma JoinCons(first: string, rest: seq<string>, separator: string)
    requires rest != []
    ensures Join([first] + rest, separator) == first + separator + Join(rest, separator)
  {}

  lemma JoinThree(a: string, b: string, c: string, separator: string)
    ensures Join([a, b, c], separator) == a + separator + (b + separator + c)
  {
    JoinCons(a, [b, c], separator);
    JoinCons(b, [c], separator);
    assert [a] + [b, c] == [a, b, c] && [b] + [c] == [b, c];
  }

  /** The parameter list reads back. */
  lemma ParametersReadBack(o: Options, saltLength: nat, keyLength: nat)
    requires o.memory < 0x1_0000_0000 && o.iterations < 0x1_0000_0000 && o.parallelism < 256
    ensures ParseOptions(Parameters(o), saltLength, keyLength) == Some(o.(saltLength := saltLength, keyLength := keyLength))
  {
    var m, t, p := "m=" + Format(o.memory), "t=" + Format(o.iterations), "p=" + Format(o.parallelism);
    FieldFree("m=", o.memory);
    FieldFree("t=", o.iterations);
    FieldFree("p=", o.parallelism);
    JoinThree(m, t, p, ",");
    ParametersJoined(Format(o.memory), Format(o.iterations), Format(o.parallelism));
    SplitJoin([m, t, p], ',');
    ParseFormatted("m=", o.memory, 0x1_0000_0000);
    ParseFormatted("t=", o.iterations, 0x1_0000_0000);
    ParseFormatted("p=", o.parallelism, 256);
  }

  lemma ParametersJoined(m: string, t: string, p: string)
    ensures "m=" + m + ",t=" + t + ",p=" + p == ("m=" + m) + "," + (("t=" + t) + "," + ("p=" + p))
  {}

  /** The fields of a printed hash. */
  function Fields(o: Options, salt: seq<Byte>, key: seq<Byte>): seq<string> {
    ["", "argon2id", "v=" + Format(VERSION), Parameters(o), Base64.Encode(salt), Base64.Encode(key)]
  }

  lemma EncodeIsJoin(o: Options, salt: seq<Byte>, key: seq<Byte>)
    ensures Encode(o, salt, key) == Join(Fields(o, salt, key), "$")
  {
    JoinSix("", "argon2id", "v=" + Format(VERSION), Parameters(o), Base64.Encode(salt), Base64.Encode(key));
    HashJoined(Format(VERSION), Parameters(o), Base64.Encode(salt), Base64.Encode(key));
  }

  lemma JoinSix(a: string, b: string, c: string, d: string, e: string, f: string)
    ensures Join([a, b, c, d, e, f], "$") == a + "$" + (b + "$" + (c + "$" + (d + "$" + (e + "$" + f))))
  {
    JoinCons(a, [b, c, d, e, f], "$");
    JoinCons(b, [c, d, e, f], "$");
    JoinCons(c, [d, e, f], "$");
    JoinThree(d, e, f, "$");
    assert [a] + [b, c, d, e, f] == [a, b, c, d, e, f];
    assert [b] + [c, d, e, f] == [b, c, d, e, f] && [c] + [d, e, f] == [c, d, e, f];
  }

  lemma HashJoined(v: string, p: string, s: string, k: string)
    ensures "$argon2id$v=" + v + "$" + p + "$" + s + "$" + k
         == "" + "$" + ("argon2id" + "$" + (("v=" + v) + "$" + (p + "$" + (s + "$" + k))))
  {}

  lemma FieldsFree(o: Options, salt: seq<Byte>, key: seq<Byte>)
    ensures Free(Fields(o, salt, key), '$')
  {}

  lemma EncodeSplits(o: Options, salt: seq<Byte>, key: seq<Byte>)
    ensures Split(Encode(o, salt, key), '$') == Fields(o, salt, key)
  {
    EncodeIsJoin(o, salt, key);
    FieldsFree(o, salt, key);
    SplitJoin(Fields(o, salt, key), '$');
  }

  /** Reading a printed hash returns exactly its parameters, salt and key. */
  lemma ParseEncode(o: Options, salt: seq<Byte>, key: seq<Byte>)
    requires ValidOptions(o) && |salt| == o.saltLength && |key| == o.keyLength
    ensures Parse(Encode(o, salt, key)) == Ok(Parsed(o, salt, key))
  {
    EncodeSplits(o, salt, key);
    ParseFormatted("v=", VERSION, 0x1_0000_0000);
    DecodeEncode(salt);
    DecodeEncode(key);
    ParametersReadBack(o, |salt|, |key|);
  }

  /** Whatever is read has parameters within the limits and lengths that are those of its salt and key. */
  lemma ParsedIsValid(stored: string)
    ensures var r := Parse(stored);
      r.Ok? ==> ValidOptions(r.value.options) && r.value.options.saltLength == |r.value.salt| && r.value.options.keyLength == |r.value.key|
  {}

  /** Two printed hashes are equal only if everything in them is. */
  lemma EncodeInjective(o1: Options, salt1: seq<Byte>, key1: seq<Byte>, o2: Options, salt2: seq<Byte>, key2: seq<Byte>)
    requires ValidOptions(o1) && |salt1| == o1.saltLength && |key1| == o1.keyLength
    requires ValidOptions(o2) && |salt2| == o2.saltLength && |key2| == o2.keyLength
    requires Encode(o1, salt1, key1) == Encode(o2, salt2, key2)
    ensures o1 == o2 && salt1 == salt2 && key1 == key2
  {
    ParseEncode(o1, salt1, key1);
    ParseEncode(o2, salt2, key2);
  }

  // ----- exactly what is read -----

  lemma {:induction false} JoinSplit(s: string, separator: char)
    ensures Join(Split(s, separator), [separator]) == s && Free(Split(s, separator), separator)
  {
    if s != "" {
      JoinSplit(s[1..], separator);
      var rest := Split(s[1..], separator);
      var parts := Split(s, separator);
      if s[0] == separator {
        JoinCons("", rest, [separator]);
        assert s == "" + [separator] + s[1..];
      } else {
        assert parts == [[s[0]] + rest[0]] + rest[1..];
        if |rest| > 1 {
          JoinCons([s[0]] + rest[0], rest[1..], [separator]);
          JoinCons(rest[0], rest[1..], [separator]);
          assert rest == [rest[0]] + rest[1..];
          Grouped(s[0], rest[0], [separator], Join(rest[1..], [separator]));
        }
      }
    }
  }

  lemma Grouped(c: char, a: string, b: string, d: string)
    ensures [c] + a + b + d == [c] + (a + b + d)
  {}

  /** A decimal numeral, leading zeros allowed. */
  predicate Numeral(text: string, n: nat) { |text| > 0 && AllDigits(text) && ValueOf(text) == n }

  /** The texts of the numbers, the salt and the key in a hash. */
  datatype Spelling = Spelling(version: string, memory: string, iterations: string, parallelism: string, salt: string, key: string)

  function HashText(w: Spelling): string {
    "$argon2id$v=" + w.version + "$" + ("m=" + w.memory + ",t=" + w.iterations + ",p=" + w.parallelism) + "$" + w.salt + "$" + w.key
  }

  /** The numbers are spelled with leading zeros at most, the bytes with line breaks at most. */
  predicate Spells(w: Spelling, o: Options, salt: seq<Byte>, key: seq<Byte>) {
    && Numeral(w.version, VERSION) && Numeral(w.memory, o.memory)
    && Numeral(w.iterations, o.iterations) && Numeral(w.parallelism, o.parallelism)
    && WithoutBreaks(w.salt) == Base64.Encode(salt) && WithoutBreaks(w.key) == Base64.Encode(key)
  }

  /** A field is read as a number exactly when it is the prefix and a numeral of it. */
  lemma ParseUintExactly(field: string, prefix: string, bound: nat, n: nat)
    ensures ParseUintField(field, prefix, bound) == Some(n) <==> n < bound && Labelled(field, prefix, n)
    ensures Labelled(field, prefix, n) ==> field == prefix + field[|prefix|..]
  {}

  predicate Labelled(field: string, prefix: string, n: nat) {
    |field| > |prefix| && field[..|prefix|] == prefix && Numeral(field[|prefix|..], n)
  }

  lemma {:induction false} BreaksOnly(s: string)
    requires AllLetters(WithoutBreaks(s))
    ensures LettersOrBreaks(s)
  {
    if s != "" {
      var kept, rest := WithoutBreaks(s), WithoutBreaks(s[1..]);
      if s[0] != '\r' && s[0] != '\n' {
        assert kept == [s[0]] + rest && IsLetter(kept[0]);
        assert forall i :: 0 <= i < |rest| ==> rest[i] == kept[i + 1];
      } else {
        assert kept == rest;
      }
      BreaksOnly(s[1..]);
    }
  }

  /** A text decodes to the bytes exactly when without its line breaks it is what they are printed as. */
  lemma DecodeExactly(s: string, bytes: seq<Byte>)
    ensures Decode(s) == Some(bytes) <==> WithoutBreaks(s) == Base64.Encode(bytes)
    ensures Decode(s).Some? ==> '$' !in s
  {
    if Decode(s) == Some(bytes) {
      EncodeDecode(s);
    }
    if WithoutBreaks(s) == Base64.Encode(bytes) {
      BreaksOnly(s);
      DecodeEncodeLetters(bytes);
    }
  }

  /** A parameter list of these three numerals. */
  predicate Listed(text: string, o: Options, m: string, t: string, p: string) {
    && text == "m=" + m + ",t=" + t + ",p=" + p
    && Numeral(m, o.memory) && Numeral(t, o.iterations) && Numeral(p, o.parallelism)
  }

  lemma OptionsSpelled(text: string, o: Options) returns (m: string, t: string, p: string)
    requires ParseOptions(text, o.saltLength, o.keyLength) == Some(o)
    ensures Listed(text, o, m, t, p)
  {
    var params := Split(text, ',');
    JoinSplit(text, ',');
    ParseUintExactly(params[0], "m=", 0x1_0000_0000, o.memory);
    ParseUintExactly(params[1], "t=", 0x1_0000_0000, o.iterations);
    ParseUintExactly(params[2], "p=", 256, o.parallelism);
    m, t, p := params[0][2..], params[1][2..], params[2][2..];
    ThreeParts(params, "m=" + m, "t=" + t, "p=" + p);
    ParametersJoined(m, t, p);
  }

  lemma ThreeParts(parts: seq<string>, a: string, b: string, c: string)
    requires |parts| == 3 && parts[0] == a && parts[1] == b && parts[2] == c
    ensures Join(parts, ",") == a + "," + (b + "," + c)
  {
    JoinThree(a, b, c, ",");
    assert parts == [a, b, c];
  }

  lemma NumeralFree(prefix: string, n: string)
    requires AllDigits(n) && forall i :: 0 <= i < |prefix| ==> Plain(prefix[i])
    ensures ',' !in prefix + n && '$' !in prefix + n && (prefix + n)[|prefix|..] == n
  {}

  lemma SpelledOptions(text: string, o: Options, m: string, t: string, p: string)
    requires Listed(text, o, m, t, p)
    ensures o.memory < 0x1_0000_0000 && o.iterations < 0x1_0000_0000 && o.parallelism < 256 ==>
      ParseOptions(text, o.saltLength, o.keyLength) == Some(o)
    ensures '$' !in text
  {
    NumeralFree("m=", m);
    NumeralFree("t=", t);
    NumeralFree("p=", p);
    ParametersJoined(m, t, p);
    JoinThree("m=" + m, "t=" + t, "p=" + p, ",");
    SplitJoin(["m=" + m, "t=" + t, "p=" + p], ',');
    ParseUintExactly("m=" + m, "m=", 0x1_0000_0000, o.memory);
    ParseUintExactly("t=" + t, "t=", 0x1_0000_0000, o.iterations);
    ParseUintExactly("p=" + p, "p=", 256, o.parallelism);
  }

  lemma TextIsJoin(w: Spelling)
    ensures HashText(w) == Join(["", "argon2id", "v=" + w.version, "m=" + w.memory + ",t=" + w.iterations + ",p=" + w.parallelism, w.salt, w.key], "$")
  {
    var p := "m=" + w.memory + ",t=" + w.iterations + ",p=" + w.parallelism;
    JoinSix("", "argon2id", "v=" + w.version, p, w.salt, w.key);
    HashJoined(w.version, p, w.salt, w.key);
  }

  predicate Fits(o: Options, salt: seq<Byte>, key: seq<Byte>) {
    ValidOptions(o) && |salt| == o.saltLength && |key| == o.keyLength
  }

  /** A spelling of valid parts is read as them. */
  lemma SpelledParses(w: Spelling, o: Options, salt: seq<Byte>, key: seq<Byte>)
    requires Spells(w, o, salt, key) && Fits(o, salt, key)
    ensures Parse(HashText(w)) == Ok(Parsed(o, salt, key))
  {
    var p := "m=" + w.memory + ",t=" + w.iterations + ",p=" + w.parallelism;
    var parts := ["", "argon2id", "v=" + w.version, p, w.salt, w.key];
    TextIsJoin(w);
    NumeralFree("v=", w.version);
    SpelledOptions(p, o, w.memory, w.iterations, w.parallelism);
    DecodeExactly(w.salt, salt);
    DecodeExactly(w.key, key);
    assert Free(parts, '$');
    SplitJoin(parts, '$');
    ParseUintExactly(parts[2], "v=", 0x1_0000_0000, VERSION);
  }

  /** The fields of what is read. */
  lemma ParsedFields(stored: string, o: Options, salt: seq<Byte>, key: seq<Byte>) returns (parts: seq<string>)
    requires Parse(stored) == Ok(Parsed(o, salt, key))
    ensures Fits(o, salt, key)
    ensures |parts| == 6 && parts[0] == "" && parts[1] == "argon2id" && Join(parts, "$") == stored
    ensures ParseUintField(parts[2], "v=", 0x1_0000_0000) == Some(VERSION)
    ensures ParseOptions(parts[3], o.saltLength, o.keyLength) == Some(o)
    ensures Decode(parts[4]) == Some(salt) && Decode(parts[5]) == Some(key)
  {
    parts := Split(stored, '$');
    JoinSplit(stored, '$');
  }

  lemma SixParts(parts: seq<string>, a: string, b: string, c: string, d: string, e: string, f: string)
    requires |parts| == 6 && parts[0] == a && parts[1] == b && parts[2] == c && parts[3] == d && parts[4] == e && parts[5] == f
    ensures parts == [a, b, c, d, e, f]
  {}

  /** What is read is a spelling of its parts. */
  lemma ParsedSpells(stored: string, o: Options, salt: seq<Byte>, key: seq<Byte>) returns (w: Spelling)
    requires Parse(stored) == Ok(Parsed(o, salt, key))
    ensures Fits(o, salt, key) && stored == HashText(w) && Spells(w, o, salt, key)
  {
    var parts := ParsedFields(stored, o, salt, key);
    ParseUintExactly(parts[2], "v=", 0x1_0000_0000, VERSION);
    var m, t, p := OptionsSpelled(parts[3], o);
    w := Spelling(parts[2][2..], m, t, p, parts[4], parts[5]);
    DecodeExactly(parts[4], salt);
    DecodeExactly(parts[5], key);
    TextIsJoin(w);
    SixParts(parts, "", "argon2id", "v=" + w.version, parts[3], w.salt, w.key);
  }

  /**
   * A text is accepted, with these parts, if and only if it is Argon2id's, of version 19, with valid
   * parameters, and differs from the printed hash by leading zeros and line breaks at most.
   */
  lemma ParseExactly(stored: string, o: Options, salt: seq<Byte>, key: seq<Byte>)
    ensures Parse(stored) == Ok(Parsed(o, salt, key)) <==>
      Fits(o, salt, key) && exists w :: stored == HashText(w) && Spells(w, o, salt, key)
  {
    if Parse(stored) == Ok(Parsed(o, salt, key)) {
      var w := ParsedSpells(stored, o, salt, key);
    }
    if w :| stored == HashText(w) && Spells(w, o, salt, key) {
      if Fits(o, salt, key) {
        SpelledParses(w, o, salt, key);
      }
    }
  }
}
