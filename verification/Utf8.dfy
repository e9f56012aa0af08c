/** UTF-8 as defined in section 3 of RFC 3629, with the strict decoder of section 4. */
module Utf8 {
  import opened Base

  function EncodeChar(c: char): (bytes: seq<byte>)
    ensures 1 <= |bytes| <= 4
  {
    var n := c as int;
    if n < 0x80 then [n]
    else if n < 0x800 then [0xC0 + n / 64, 0x80 + n % 64]
    else if n < 0x1_0000 then [0xE0 + n / 4096, 0x80 + n / 64 % 64, 0x80 + n % 64]
    else [0xF0 + n / 262144, 0x80 + n / 4096 % 64, 0x80 + n / 64 % 64, 0x80 + n % 64]
  }

  function Encode(text: string): seq<byte> {
    if text == [] then [] else EncodeChar(text[0]) + Encode(text[1..])
  }

  predicate IsTail(b: byte) {
    0x80 <= b < 0xC0
  }

  function Join2(b0: int, b1: int): int {
    (b0 - 0xC0) * 64 + (b1 - 0x80)
  }

  function Join3(b0: int, b1: int, b2: int): int {
    (b0 - 0xE0) * 4096 + (b1 - 0x80) * 64 + (b2 - 0x80)
  }

  function Join4(b0: int, b1: int, b2: int, b3: int): int {
    (b0 - 0xF0) * 262144 + (b1 - 0x80) * 4096 + (b2 - 0x80) * 64 + (b3 - 0x80)
  }

  /**
   Reads one character and says how many bytes it took. Overlong forms, surrogates and
   values past U+10FFFF are refused, which is what the bounds on the second byte do.
   */
  function DecodeChar(b: seq<byte>): Option<(char, nat)>
    requires b != []
  {
    if b[0] < 0x80 then
      Some((b[0] as char, 1))
    else if 0xC2 <= b[0] < 0xE0 && |b| >= 2 && IsTail(b[1]) then
      Some((Join2(b[0], b[1]) as char, 2))
    else if 0xE0 <= b[0] < 0xF0 && |b| >= 3 && IsTail(b[1]) && IsTail(b[2])
            && (b[0] == 0xE0 ==> 0xA0 <= b[1]) && (b[0] == 0xED ==> b[1] < 0xA0) then
      Some((Join3(b[0], b[1], b[2]) as char, 3))
    else if 0xF0 <= b[0] <= 0xF4 && |b| >= 4 && IsTail(b[1]) && IsTail(b[2]) && IsTail(b[3])
            && (b[0] == 0xF0 ==> 0x90 <= b[1]) && (b[0] == 0xF4 ==> b[1] < 0x90) then
      Some((Join4(b[0], b[1], b[2], b[3]) as char, 4))
    else
      None
  }

  function Decode(b: seq<byte>): Option<string> {
    if b == [] then Some([])
    else
      match DecodeChar(b)
      case None => None
      case Some((c, used)) =>
        if used > |b| then None
        else
          match Decode(b[used..])
          case None => None
          case Some(rest) => Some([c] + rest)
  }

  /** A character is read the same way whatever follows it. */
  lemma DecodeIgnoresRest(b: seq<byte>, rest: seq<byte>)
    requires b != []
    requires DecodeChar(b).Some?
    ensures DecodeChar(b + rest) == DecodeChar(b)
  {
    var all := b + rest;
    assert forall i :: 0 <= i < |b| ==> all[i] == b[i];
  }

  lemma Digits3(n: nat)
    requires 0x800 <= n < 0xD800 || 0xE000 <= n < 0x1_0000
    ensures n == n / 4096 * 4096 + n / 64 % 64 * 64 + n % 64
    ensures n / 4096 < 16
    ensures n / 4096 == 0 ==> 32 <= n / 64 % 64
    ensures n / 4096 == 13 ==> n / 64 % 64 < 32
  {
  }

  lemma Digits4(n: nat)
    requires 0x1_0000 <= n < 0x11_0000
    ensures n == n / 262144 * 262144 + n / 4096 % 64 * 4096 + n / 64 % 64 * 64 + n % 64
    ensures n / 262144 <= 4
    ensures n / 262144 == 0 ==> 16 <= n / 4096 % 64
    ensures n / 262144 == 4 ==> n / 4096 % 64 < 16
  {
  }

  lemma DecodeEncodedChar(c: char)
    ensures DecodeChar(EncodeChar(c)) == Some((c, |EncodeChar(c)|))
  {
    var n := c as int;
    if 0x800 <= n < 0x1_0000 {
      Digits3(n);
      assert Join3(0xE0 + n / 4096, 0x80 + n / 64 % 64, 0x80 + n % 64) == n;
    } else if 0x1_0000 <= n {
      Digits4(n);
      assert Join4(0xF0 + n / 262144, 0x80 + n / 4096 % 64, 0x80 + n / 64 % 64, 0x80 + n % 64) == n;
    }
  }

  lemma EncodeDecodedChar(b: seq<byte>)
    requires b != []
    requires DecodeChar(b).Some?
    ensures DecodeChar(b).value.1 <= |b|
    ensures EncodeChar(DecodeChar(b).value.0) == b[..DecodeChar(b).value.1]
  {
    if b[0] < 0x80 {
    } else if b[0] < 0xE0 {
      Split2(b[0], b[1]);
    } else if b[0] < 0xF0 {
      Split3(b[0], b[1], b[2]);
    } else {
      Split4(b[0], b[1], b[2], b[3]);
    }
  }

  lemma Split2(b0: byte, b1: byte)
    requires 0xC2 <= b0 < 0xE0 && IsTail(b1)
    ensures EncodeChar(Join2(b0, b1) as char) == [b0, b1]
  {
  }

  lemma Split3(b0: byte, b1: byte, b2: byte)
    requires 0xE0 <= b0 < 0xF0 && IsTail(b1) && IsTail(b2)
    requires b0 == 0xE0 ==> 0xA0 <= b1
    requires b0 == 0xED ==> b1 < 0xA0
    ensures EncodeChar(Join3(b0, b1, b2) as char) == [b0, b1, b2]
  {
    var n := Join3(b0, b1, b2);
    assert n / 4096 == b0 - 0xE0;
    assert n / 64 == (b0 - 0xE0) * 64 + (b1 - 0x80);
  }

  lemma Split4(b0: byte, b1: byte, b2: byte, b3: byte)
    requires 0xF0 <= b0 <= 0xF4 && IsTail(b1) && IsTail(b2) && IsTail(b3)
    requires b0 == 0xF0 ==> 0x90 <= b1
    requires b0 == 0xF4 ==> b1 < 0x90
    ensures EncodeChar(Join4(b0, b1, b2, b3) as char) == [b0, b1, b2, b3]
  {
    var n := Join4(b0, b1, b2, b3);
    assert n / 262144 == b0 - 0xF0;
    assert n / 4096 == (b0 - 0xF0) * 64 + (b1 - 0x80);
    assert n / 64 == (b0 - 0xF0) * 4096 + (b1 - 0x80) * 64 + (b2 - 0x80);
  }

  /** Every text is recovered from its encoding. */
  lemma {:induction false} DecodeEncode(text: string)
    ensures Decode(Encode(text)) == Some(text)
  {
    if text != [] {
      DecodeEncodedChar(text[0]);
      DecodeIgnoresRest(EncodeChar(text[0]), Encode(text[1..]));
      DecodeEncode(text[1..]);
      assert text == [text[0]] + text[1..];
      assert Encode(text)[|EncodeChar(text[0])|..] == Encode(text[1..]);
    }
  }

  lemma EncodeCons(c: char, rest: string)
    ensures Encode([c] + rest) == EncodeChar(c) + Encode(rest)
  {
    assert ([c] + rest)[1..] == rest;
  }

  /** The decoder accepts nothing but encodings. */
  lemma {:induction false} EncodeDecode(b: seq<byte>)
    requires Decode(b).Some?
    ensures Encode(Decode(b).value) == b
  {
    if b != [] {
      EncodeDecodedChar(b);
      var used := DecodeChar(b).value.1;
      EncodeDecode(b[used..]);
      EncodeCons(DecodeChar(b).value.0, Decode(b[used..]).value);
      assert b[..used] + b[used..] == b;
    }
  }

  lemma {:induction false} EncodeConcat(s: string, t: string)
    ensures Encode(s + t) == Encode(s) + Encode(t)
  {
    if s == [] {
      assert s + t == t;
    } else {
      EncodeConcat(s[1..], t);
      assert (s + t)[1..] == s[1..] + t;
      ConcatAssociates(EncodeChar(s[0]), Encode(s[1..]), Encode(t));
    }
  }

  lemma EncodeSnoc(s: string, c: char)
    ensures Encode(s + [c]) == Encode(s) + EncodeChar(c)
  {
    EncodeConcat(s, [c]);
    assert Encode([]) == [];
    assert EncodeChar(c) + [] == EncodeChar(c);
  }

  /** Two examples of section 7 of RFC 3629: one text with one to three bytes a character, and one character of four. */
  lemma RfcExamples()
    ensures Encode(['A', 0x2262 as char, 0x391 as char, '.']) == [0x41, 0xE2, 0x89, 0xA2, 0xCE, 0x91, 0x2E]
    ensures Encode([0x233B4 as char]) == [0xF0, 0xA3, 0x8E, 0xB4]
  {
    var a, b, c, d := 'A', 0x2262 as char, 0x391 as char, '.';
    assert [d][1..] == [] && [c, d][1..] == [d] && [b, c, d][1..] == [c, d] && [a, b, c, d][1..] == [b, c, d];
    assert EncodeChar(a) == [0x41] && EncodeChar(d) == [0x2E];
    assert EncodeChar(b) == [0xE2, 0x89, 0xA2] && EncodeChar(c) == [0xCE, 0x91];
    assert Encode([d]) == [0x2E] && Encode([c, d]) == [0xCE, 0x91, 0x2E];
    assert Encode([b, c, d]) == [0xE2, 0x89, 0xA2, 0xCE, 0x91, 0x2E];
    assert [0x233B4 as char][1..] == [];
  }
}
