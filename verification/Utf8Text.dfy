/**
 * UTF-8 as an encoding of characters (section 3 of RFC 3629): the valid byte strings
 * are the encodings of texts, and lossy decoding undoes encoding.
 */
module Utf8Text {
  import opened Bytes
  import opened Seqs
  import opened Utf8
  import opened SseStream

  function ToByte(n: int): byte
    requires 0 <= n < 256
  {
    n as byte
  }

  function EncodeChar(c: char): (r: seq<byte>)
    ensures r != []
  {
    var n := c as int;
    if n < 0x80 then [ToByte(n)]
    else if n < 0x800 then [ToByte(0xC0 + n / 64), ToByte(0x80 + n % 64)]
    else if n < 0x1_0000 then [ToByte(0xE0 + n / 4096), ToByte(0x80 + n / 64 % 64), ToByte(0x80 + n % 64)]
    else [ToByte(0xF0 + n / 262144), ToByte(0x80 + n / 4096 % 64), ToByte(0x80 + n / 64 % 64),
          ToByte(0x80 + n % 64)]
  }

  function EncodeText(s: string): seq<byte> {
    if s == "" then [] else EncodeChar(s[0]) + EncodeText(s[1..])
  }

  lemma SixBits(n: int, q: int, r: int)
    requires 0 <= r < 64 && n == q * 64 + r
    ensures n / 64 == q && n % 64 == r
  {
  }

  /** The six-bit groups of a number, the lowest last. */
  lemma Groups(n: nat)
    ensures n == n / 64 * 64 + n % 64
    ensures n == n / 4096 * 4096 + n / 64 % 64 * 64 + n % 64
    ensures n == n / 262144 * 262144 + n / 4096 % 64 * 4096 + n / 64 % 64 * 64 + n % 64
  {
    var a, b := n / 64, n / 64 / 64;
    assert b == n / 4096 && b / 64 == n / 262144;
    assert a == b * 64 + a % 64 && b == b / 64 * 64 + b % 64;
  }

  lemma EncodedTwo(c: char)
    requires 0x80 <= c as int < 0x800
    ensures CharLength(EncodeChar(c)) == |EncodeChar(c)| && DecodeChar(EncodeChar(c)) == c
  {
    Groups(c as int);
  }

  lemma EncodedThree(c: char)
    requires 0x800 <= c as int < 0x1_0000
    ensures CharLength(EncodeChar(c)) == |EncodeChar(c)| && DecodeChar(EncodeChar(c)) == c
  {
    var n := c as int;
    Groups(n);
    var r := EncodeChar(c);
    assert r[0] as int == 0xE0 + n / 4096 && r[1] as int == 0x80 + n / 64 % 64 && r[2] as int == 0x80 + n % 64;
  }

  lemma EncodedFour(c: char)
    requires 0x1_0000 <= c as int
    ensures CharLength(EncodeChar(c)) == |EncodeChar(c)| && DecodeChar(EncodeChar(c)) == c
  {
    var n := c as int;
    Groups(n);
    var r := EncodeChar(c);
    assert r[0] as int == 0xF0 + n / 262144 && r[1] as int == 0x80 + n / 4096 % 64
        && r[2] as int == 0x80 + n / 64 % 64 && r[3] as int == 0x80 + n % 64;
  }

  lemma EncodedDecodes(c: char)
    ensures CharLength(EncodeChar(c)) == |EncodeChar(c)| && DecodeChar(EncodeChar(c)) == c
  {
    var n := c as int;
    if 0x80 <= n < 0x800 {
      EncodedTwo(c);
    } else if 0x800 <= n < 0x1_0000 {
      EncodedThree(c);
    } else if 0x1_0000 <= n {
      EncodedFour(c);
    }
  }

  lemma DecodePrefix(s: seq<byte>, t: seq<byte>)
    requires CharLength(s) == |s| > 0
    ensures CharLength(s + t) == |s| && DecodeChar(s + t) == DecodeChar(s)
  {
    CharLengthPrefix(s, t);
    assert forall i :: 0 <= i < |s| ==> (s + t)[i] == s[i];
  }

  lemma DecodedTwo(s: seq<byte>)
    requires CharLength(s) == 2
    ensures EncodeChar(DecodeChar(s)) == s[..2]
  {
    SixBits(DecodeChar(s) as int, s[0] as int - 0xC0, s[1] as int - 0x80);
  }

  lemma DecodedThree(s: seq<byte>)
    requires CharLength(s) == 3
    ensures EncodeChar(DecodeChar(s)) == s[..3]
  {
    var n := DecodeChar(s) as int;
    var high := (s[0] as int - 0xE0) * 64 + (s[1] as int - 0x80);
    SixBits(n, high, s[2] as int - 0x80);
    SixBits(high, s[0] as int - 0xE0, s[1] as int - 0x80);
    assert n / 4096 == high / 64;
  }

  lemma DecodedFour(s: seq<byte>)
    requires CharLength(s) == 4
    ensures EncodeChar(DecodeChar(s)) == s[..4]
  {
    var n := DecodeChar(s) as int;
    var top := (s[0] as int - 0xF0) * 64 + (s[1] as int - 0x80);
    var high := top * 64 + (s[2] as int - 0x80);
    SixBits(n, high, s[3] as int - 0x80);
    SixBits(high, top, s[2] as int - 0x80);
    SixBits(top, s[0] as int - 0xF0, s[1] as int - 0x80);
    assert n / 4096 == high / 64 && n / 262144 == top / 64;
  }

  lemma DecodedEncodes(s: seq<byte>)
    requires CharLength(s) > 0
    ensures EncodeChar(DecodeChar(s)) == s[..CharLength(s)]
  {
    if CharLength(s) == 2 {
      DecodedTwo(s);
    } else if CharLength(s) == 3 {
      DecodedThree(s);
    } else if CharLength(s) == 4 {
      DecodedFour(s);
    } else {
      assert s[..1] == [s[0]];
    }
  }

  /** Encoding and decoding again gives the text back. */
  lemma {:induction false} LossyEncoded(s: string)
    ensures Lossy(EncodeText(s)) == s && Valid(EncodeText(s))
    decreases |s|
  {
    if s != "" {
      var head, rest := EncodeChar(s[0]), EncodeText(s[1..]);
      EncodedDecodes(s[0]);
      DecodePrefix(head, rest);
      assert (head + rest)[|head|..] == rest;
      LossyEncoded(s[1..]);
      assert s == [s[0]] + s[1..];
    }
  }

  lemma EncodeCons(c: char, rest: string)
    ensures EncodeText([c] + rest) == EncodeChar(c) + EncodeText(rest)
  {
    assert ([c] + rest)[1..] == rest;
  }

  lemma LossyStep(s: seq<byte>, n: nat)
    requires 0 < n == CharLength(s)
    ensures n <= |s| && Lossy(s) == [DecodeChar(s)] + Lossy(s[n..])
  {
  }

  lemma Rejoined(s: seq<byte>, n: nat)
    requires n <= |s|
    ensures s[..n] + s[n..] == s
  {
  }

  lemma EncodedStep(s: seq<byte>, n: nat)
    requires 0 < n == CharLength(s) && s[n..] == EncodeText(Lossy(s[n..]))
    ensures EncodeText(Lossy(s)) == s
  {
    LossyStep(s, n);
    Rejoined(s, n);
    DecodedEncodes(s);
    EncodeCons(DecodeChar(s), Lossy(s[n..]));
  }

  lemma ValidStep(s: seq<byte>) returns (rest: seq<byte>)
    requires Valid(s) && s != []
    ensures |rest| < |s| && Valid(rest)
    ensures rest == EncodeText(Lossy(rest)) ==> s == EncodeText(Lossy(s))
  {
    var n := CharLength(s);
    rest := s[n..];
    if rest == EncodeText(Lossy(rest)) {
      EncodedStep(s, n);
    }
  }

  lemma {:induction false} ValidDecoded(s: seq<byte>)
    requires Valid(s)
    ensures s == EncodeText(Lossy(s))
    decreases |s|
  {
    if s != [] {
      var rest := ValidStep(s);
      ValidDecoded(rest);
    }
  }

  /** The valid byte strings are the encodings of what they decode to. */
  lemma ValidExactly(s: seq<byte>)
    ensures Valid(s) <==> s == EncodeText(Lossy(s))
  {
    LossyEncoded(Lossy(s));
    if Valid(s) {
      ValidDecoded(s);
    }
  }

  lemma {:induction false} EncodeConcat(s: string, t: string)
    ensures EncodeText(s + t) == EncodeText(s) + EncodeText(t)
    decreases |s|
  {
    if s == "" {
      assert s + t == t;
    } else {
      assert (s + t)[1..] == s[1..] + t;
      EncodeConcat(s[1..], t);
      Associate(EncodeChar(s[0]), EncodeText(s[1..]), EncodeText(t));
    }
  }

  // ---- what is not a character ----

  /** A character starts with `s` and goes on. */
  ghost predicate Begins(s: seq<byte>) {
    exists c :: |EncodeChar(c)| > |s| && EncodeChar(c)[..|s|] == s
  }

  lemma BeginsWith(s: seq<byte>, whole: seq<byte>)
    requires |s| < |whole| == CharLength(whole) && whole[..|s|] == s
    ensures Begins(s)
  {
    DecodedEncodes(whole);
    assert whole[..|whole|] == whole;
    assert EncodeChar(DecodeChar(whole))[..|s|] == s;
  }

  lemma BadBegins(s: seq<byte>, k: nat)
    requires s != [] && CharLength(s) == 0 && 1 < k <= BadLength(s)
    ensures Begins(s[..k])
  {
    if s[0] <= 0xEF {
      BeginsWith(s[..k], [s[0], s[1], 0x80]);
    } else if k == 2 {
      BeginsWith(s[..k], [s[0], s[1], 0x80, 0x80]);
    } else {
      BeginsWith(s[..k], [s[0], s[1], s[2], 0x80]);
    }
  }

  lemma BeginningIsBad(s: seq<byte>, k: nat, c: char)
    requires s != [] && CharLength(s) == 0 && 1 < k <= |s|
    requires |EncodeChar(c)| > k && EncodeChar(c)[..k] == s[..k]
    ensures k <= BadLength(s)
  {
    var whole := EncodeChar(c);
    EncodedDecodes(c);
    assert forall i :: 0 <= i < k ==> whole[i] == s[..k][i] == s[i];
  }

  /** One replacement character stands for a byte and as many more as still begin a character. */
  lemma BadLengthExactly(s: seq<byte>, k: nat)
    requires s != [] && CharLength(s) == 0 && 1 < k <= |s|
    ensures k <= BadLength(s) <==> Begins(s[..k])
  {
    if k <= BadLength(s) {
      BadBegins(s, k);
    }
    if Begins(s[..k]) {
      var c :| |EncodeChar(c)| > |s[..k]| && EncodeChar(c)[..|s[..k]|] == s[..k];
      BeginningIsBad(s, k, c);
    }
  }
}
