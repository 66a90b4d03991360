/**
 * Unpadded standard base64 as Go decodes it strictly (RFC 4648 sections 3.2 and 4): zero trailing
 * bits are required, line breaks are skipped.
 */
module Base64 {
  import opened Outcomes

  type Byte = n: nat | n < 256

  function Letter(n: nat): char
    requires n < 64
  {
    if n < 26 then ('A' as int + n) as char
    else if n < 52 then ('a' as int + n - 26) as char
    else if n < 62 then ('0' as int + n - 52) as char
    else if n == 62 then '+' else '/'
  }

  function Value(c: char): Option<nat> {
    if 'A' <= c <= 'Z' then Some(c as int - 'A' as int)
    else if 'a' <= c <= 'z' then Some(c as int - 'a' as int + 26)
    else if '0' <= c <= '9' then Some(c as int - '0' as int + 52)
    else if c == '+' then Some(62) else if c == '/' then Some(63) else None
  }

  lemma ValueOfLetter(n: nat)
    requires n < 64
    ensures Value(Letter(n)) == Some(n)
  {}

  lemma LetterOfValue(c: char)
    requires Value(c).Some?
    ensures Value(c).value < 64 && Letter(Value(c).value) == c
  {}

  predicate IsLetter(c: char) { Value(c).Some? }

  predicate AllLetters(s: string) { forall i :: 0 <= i < |s| ==> IsLetter(s[i]) }

  function Encode(bytes: seq<Byte>): (s: string)
    ensures AllLetters(s)
  {
    if |bytes| == 0 then ""
    else if |bytes| == 1 then [Letter(bytes[0] / 4), Letter(bytes[0] % 4 * 16)]
    else if |bytes| == 2 then
      [Letter(bytes[0] / 4), Letter(bytes[0] % 4 * 16 + bytes[1] / 16), Letter(bytes[1] % 16 * 4)]
    else
      [Letter(bytes[0] / 4), Letter(bytes[0] % 4 * 16 + bytes[1] / 16),
       Letter(bytes[1] % 16 * 4 + bytes[2] / 64), Letter(bytes[2] % 64)] + Encode(bytes[3..])
  }

  /** Letters only: groups of four, and a last group of two or three whose spare bits are zero. */
  function DecodeLetters(s: string): Option<seq<Byte>>
    requires AllLetters(s)
  {
    if |s| == 0 then Some([])
    else if |s| == 1 then None
    else
      var a, b := Value(s[0]).value, Value(s[1]).value;
      if |s| == 2 then if b % 16 == 0 then Some([Whole(a, b)]) else None
      else
        var c := Value(s[2]).value;
        if |s| == 3 then if c % 4 == 0 then Some([Whole(a, b), Second(b, c)]) else None
        else
          match DecodeLetters(s[4..])
          case None => None
          case Some(rest) => Some([Whole(a, b), Second(b, c), Third(c, Value(s[3]).value)] + rest)
  }

  function Whole(a: nat, b: nat): Byte
    requires a < 64 && b < 64
  {
    a * 4 + b / 16
  }

  function Second(b: nat, c: nat): Byte
    requires b < 64 && c < 64
  {
    b % 16 * 16 + c / 4
  }

  function Third(c: nat, d: nat): Byte
    requires c < 64 && d < 64
  {
    c % 4 * 64 + d
  }

  function WithoutBreaks(s: string): string {
    if s == "" then "" else (if s[0] == '\r' || s[0] == '\n' then "" else [s[0]]) + WithoutBreaks(s[1..])
  }

  predicate LettersOrBreaks(s: string) { forall i :: 0 <= i < |s| ==> IsLetter(s[i]) || s[i] == '\r' || s[i] == '\n' }

  lemma {:induction false} BreaksRemoved(s: string)
    requires LettersOrBreaks(s)
    ensures AllLetters(WithoutBreaks(s))
  {
    if s != "" {
      BreaksRemoved(s[1..]);
    }
  }

  lemma {:induction false} NothingToRemove(s: string)
    requires AllLetters(s)
    ensures WithoutBreaks(s) == s
  {
    if s != "" {
      NothingToRemove(s[1..]);
      assert IsLetter(s[0]) && [s[0]] + s[1..] == s;
    }
  }

  function Decode(s: string): Option<seq<Byte>> {
    if !LettersOrBreaks(s) then None
    else
      BreaksRemoved(s);
      DecodeLetters(WithoutBreaks(s))
  }

  // ----- the round trips -----

  lemma ThreeSextets(a: Byte, b: Byte)
    ensures a % 4 * 16 + b / 16 < 64
    ensures Whole(a / 4, a % 4 * 16 + b / 16) == a && Second(a % 4 * 16 + b / 16, b % 16 * 4) == b
  {}

  lemma FourSextets(a: Byte, b: Byte, c: Byte)
    ensures a % 4 * 16 + b / 16 < 64 && b % 16 * 4 + c / 64 < 64
    ensures var x, y := a % 4 * 16 + b / 16, b % 16 * 4 + c / 64;
      Whole(a / 4, x) == a && Second(x, y) == b && Third(y, c % 64) == c
  {}

  lemma OneByteThere(a: Byte)
    ensures DecodeLetters(Encode([a])) == Some([a])
  {}

  lemma TwoBytesThere(a: Byte, b: Byte)
    ensures DecodeLetters(Encode([a, b])) == Some([a, b])
  {
    ThreeSextets(a, b);
    ValueOfLetter(a / 4);
    ValueOfLetter(a % 4 * 16 + b / 16);
    ValueOfLetter(b % 16 * 4);
  }

  lemma ThreeBytesThere(a: Byte, b: Byte, c: Byte, rest: string)
    requires AllLetters(rest) && DecodeLetters(rest).Some?
    ensures var s := [Letter(a / 4), Letter(a % 4 * 16 + b / 16), Letter(b % 16 * 4 + c / 64), Letter(c % 64)] + rest;
      AllLetters(s) && DecodeLetters(s) == Some([a, b, c] + DecodeLetters(rest).value)
  {
    FourSextets(a, b, c);
    ValueOfLetter(a / 4);
    ValueOfLetter(a % 4 * 16 + b / 16);
    ValueOfLetter(b % 16 * 4 + c / 64);
    ValueOfLetter(c % 64);
    var s := [Letter(a / 4), Letter(a % 4 * 16 + b / 16), Letter(b % 16 * 4 + c / 64), Letter(c % 64)] + rest;
    assert s[4..] == rest;
  }

  lemma EncodeGroup(a: Byte, b: Byte, c: Byte, rest: seq<Byte>)
    ensures Encode([a, b, c] + rest) ==
      [Letter(a / 4), Letter(a % 4 * 16 + b / 16), Letter(b % 16 * 4 + c / 64), Letter(c % 64)] + Encode(rest)
  {}

  lemma GroupThere(a: Byte, b: Byte, c: Byte, rest: seq<Byte>)
    requires DecodeLetters(Encode(rest)) == Some(rest)
    ensures DecodeLetters(Encode([a, b, c] + rest)) == Some([a, b, c] + rest)
  {
    EncodeGroup(a, b, c, rest);
    ThreeBytesThere(a, b, c, Encode(rest));
  }

  lemma {:induction false} DecodeEncodeLetters(bytes: seq<Byte>)
    ensures DecodeLetters(Encode(bytes)) == Some(bytes)
  {
    if |bytes| == 1 {
      OneByteThere(bytes[0]);
      assert bytes == [bytes[0]];
    } else if |bytes| == 2 {
      TwoBytesThere(bytes[0], bytes[1]);
      assert bytes == [bytes[0], bytes[1]];
    } else if |bytes| > 2 {
      DecodeEncodeLetters(bytes[3..]);
      GroupThere(bytes[0], bytes[1], bytes[2], bytes[3..]);
      assert bytes == [bytes[0], bytes[1], bytes[2]] + bytes[3..];
    }
  }

  lemma DecodeEncode(bytes: seq<Byte>)
    ensures Decode(Encode(bytes)) == Some(bytes)
  {
    NothingToRemove(Encode(bytes));
    DecodeEncodeLetters(bytes);
  }

  lemma TwoBack(a: nat, b: nat)
    requires a < 64 && b < 64 && b % 16 == 0
    ensures Whole(a, b) / 4 == a && Whole(a, b) % 4 * 16 == b
  {}

  lemma ThreeBack(a: nat, b: nat, c: nat)
    requires a < 64 && b < 64 && c < 64 && c % 4 == 0
    ensures Whole(a, b) / 4 == a && Whole(a, b) % 4 * 16 + Second(b, c) / 16 == b && Second(b, c) % 16 * 4 == c
  {}

  lemma FourBack(a: nat, b: nat, c: nat, d: nat)
    requires a < 64 && b < 64 && c < 64 && d < 64
    ensures Whole(a, b) / 4 == a && Whole(a, b) % 4 * 16 + Second(b, c) / 16 == b
    ensures Second(b, c) % 16 * 4 + Third(c, d) / 64 == c && Third(c, d) % 64 == d
  {}

  lemma TwoLettersBack(s: string)
    requires AllLetters(s) && |s| == 2 && DecodeLetters(s).Some?
    ensures Encode(DecodeLetters(s).value) == s
  {
    LetterOfValue(s[0]);
    LetterOfValue(s[1]);
    TwoBack(Value(s[0]).value, Value(s[1]).value);
  }

  lemma ThreeLettersBack(s: string)
    requires AllLetters(s) && |s| == 3 && DecodeLetters(s).Some?
    ensures Encode(DecodeLetters(s).value) == s
  {
    LetterOfValue(s[0]);
    LetterOfValue(s[1]);
    LetterOfValue(s[2]);
    ThreeBack(Value(s[0]).value, Value(s[1]).value, Value(s[2]).value);
  }

  lemma FourLettersBack(s: string, rest: seq<Byte>)
    requires AllLetters(s) && |s| == 4
    ensures var a, b, c, d := Value(s[0]).value, Value(s[1]).value, Value(s[2]).value, Value(s[3]).value;
      Encode([Whole(a, b), Second(b, c), Third(c, d)] + rest) == s + Encode(rest)
  {
    LetterOfValue(s[0]);
    LetterOfValue(s[1]);
    LetterOfValue(s[2]);
    LetterOfValue(s[3]);
    var a, b, c, d := Value(s[0]).value, Value(s[1]).value, Value(s[2]).value, Value(s[3]).value;
    FourBack(a, b, c, d);
    EncodeGroup(Whole(a, b), Second(b, c), Third(c, d), rest);
    assert s == [s[0], s[1], s[2], s[3]];
  }

  /** Strict decoding accepts one spelling of each byte string. */
  lemma {:induction false} EncodeDecodeLetters(s: string)
    requires AllLetters(s) && DecodeLetters(s).Some?
    ensures Encode(DecodeLetters(s).value) == s
  {
    if |s| == 2 {
      TwoLettersBack(s);
    } else if |s| == 3 {
      ThreeLettersBack(s);
    } else if |s| >= 4 {
      EncodeDecodeLetters(s[4..]);
      FourLettersBack(s[..4], DecodeLetters(s[4..]).value);
      assert s == s[..4] + s[4..];
    }
  }

  /** Only line breaks can differ between two texts that decode alike. */
  lemma EncodeDecode(s: string)
    requires Decode(s).Some?
    ensures WithoutBreaks(s) == Encode(Decode(s).value)
  {
    BreaksRemoved(s);
    EncodeDecodeLetters(WithoutBreaks(s));
  }
}
