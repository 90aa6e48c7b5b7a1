/**
 * UTF-8 as Python's `str.encode("utf-8")` and strict `bytes.decode("utf-8")`
 * apply it to the robot's name and speech strings. A Dafny `char` is a
 * Unicode scalar value, so every string here is encodable; a Python string
 * holding a lone surrogate, on which encoding raises, has no counterpart.
 */
module Utf8 {
  import opened Wrappers
  import opened Seqs
  import opened Struct

  /** The encoding of one scalar value: one to four bytes. */
  function EncodeChar(c: char): (b: seq<byte>)
    ensures 1 <= |b| <= 4
  {
    var v := c as int;
    if v < 0x80 then [v]
    else if v < 0x800 then [0xC0 + v / 0x40, 0x80 + v % 0x40]
    else if v < 0x1_0000 then [0xE0 + v / 0x1000, 0x80 + v / 0x40 % 0x40, 0x80 + v % 0x40]
    else [0xF0 + v / 0x4_0000, 0x80 + v / 0x1000 % 0x40, 0x80 + v / 0x40 % 0x40, 0x80 + v % 0x40]
  }

  /** `s.encode("utf-8")`. */
  function Encode(s: string): (b: seq<byte>)
    ensures |b| >= |s|
  {
    if s == [] then [] else EncodeChar(s[0]) + Encode(s[1..])
  }

  predicate IsContinuation(b: byte) { 0x80 <= b < 0xC0 }

  /**
   * The first character of a strict UTF-8 byte string and the number of
   * bytes it takes, or None when the bytes there are not well formed
   * (a stray continuation byte, an overlong form, a surrogate, a value
   * past U+10FFFF, or a truncated sequence).
   */
  function DecodeFirst(b: seq<byte>): (r: Option<(char, nat)>)
    requires |b| > 0
    ensures r.Some? ==> 1 <= r.value.1 <= |b| && r.value.1 <= 4
  {
    var b0 := b[0] as int;
    if b0 < 0x80 then Some((b0 as char, 1))
    else if 0xC2 <= b0 < 0xE0 then
      if |b| >= 2 && IsContinuation(b[1]) then
        Some((((b0 - 0xC0) * 0x40 + (b[1] as int - 0x80)) as char, 2))
      else None
    else if 0xE0 <= b0 < 0xF0 then
      var lo := if b0 == 0xE0 then 0xA0 else 0x80;
      var hi := if b0 == 0xED then 0xA0 else 0xC0;
      if |b| >= 3 && lo <= b[1] < hi && IsContinuation(b[2]) then
        Some((((b0 - 0xE0) * 0x1000 + (b[1] as int - 0x80) * 0x40 + (b[2] as int - 0x80)) as char, 3))
      else None
    else if 0xF0 <= b0 < 0xF5 then
      var lo := if b0 == 0xF0 then 0x90 else 0x80;
      var hi := if b0 == 0xF4 then 0x90 else 0xC0;
      if |b| >= 4 && lo <= b[1] < hi && IsContinuation(b[2]) && IsContinuation(b[3]) then
        Some((((b0 - 0xF0) * 0x4_0000 + (b[1] as int - 0x80) * 0x1000 + (b[2] as int - 0x80) * 0x40 + (b[3] as int - 0x80)) as char, 4))
      else None
    else None
  }

  /** `b.decode("utf-8")`: UnicodeDecodeError on the first ill-formed sequence. */
  function Decode(b: seq<byte>): (r: Result<string>)
    ensures r.Ok? ==> |r.value| <= |b|
    decreases |b|
  {
    if b == [] then Ok([])
    else match DecodeFirst(b)
      case None => Err(UnicodeDecodeError)
      case Some((c, n)) =>
        match Decode(b[n..])
        case Err(e) => Err(e)
        case Ok(rest) => Ok([c] + rest)
  }

  lemma Split2(v: int)
    requires 0x80 <= v < 0x800
    ensures 0xC2 <= 0xC0 + v / 0x40 < 0xE0
    ensures (v / 0x40) * 0x40 + v % 0x40 == v
  {
  }

  lemma Split3(v: int)
    requires 0x800 <= v < 0x1_0000 && !(0xD800 <= v < 0xE000)
    ensures 0xE0 <= 0xE0 + v / 0x1000 < 0xF0
    ensures v / 0x1000 == 0 ==> 0x20 <= v / 0x40 % 0x40
    ensures v / 0x1000 == 0xD ==> v / 0x40 % 0x40 < 0x20
    ensures (v / 0x1000) * 0x1000 + (v / 0x40 % 0x40) * 0x40 + v % 0x40 == v
  {
  }

  lemma Split4(v: int)
    requires 0x1_0000 <= v < 0x11_0000
    ensures 0xF0 <= 0xF0 + v / 0x4_0000 < 0xF5
    ensures v / 0x4_0000 == 0 ==> 0x10 <= v / 0x1000 % 0x40
    ensures v / 0x4_0000 == 4 ==> v / 0x1000 % 0x40 < 0x10
    ensures (v / 0x4_0000) * 0x4_0000 + (v / 0x1000 % 0x40) * 0x1000 + (v / 0x40 % 0x40) * 0x40 + v % 0x40 == v
  {
  }

  /** The encoding of a character decodes back to it, whatever follows. */
  lemma DecodeFirstEncodeChar(c: char, rest: seq<byte>)
    ensures DecodeFirst(EncodeChar(c) + rest) == Some((c, |EncodeChar(c)|))
  {
    var v := c as int;
    if v < 0x80 {
    } else if v < 0x800 {
      DecodeFirstTwo(c, rest);
    } else if v < 0x1_0000 {
      DecodeFirstThree(c, rest);
    } else {
      DecodeFirstFour(c, rest);
    }
  }

  lemma DecodeFirstTwo(c: char, rest: seq<byte>)
    requires 0x80 <= c as int < 0x800
    ensures DecodeFirst(EncodeChar(c) + rest) == Some((c, 2))
  {
    Split2(c as int);
  }

  lemma DecodeFirstThree(c: char, rest: seq<byte>)
    requires 0x800 <= c as int < 0x1_0000
    ensures DecodeFirst(EncodeChar(c) + rest) == Some((c, 3))
  {
    Split3(c as int);
  }

  lemma DecodeFirstFour(c: char, rest: seq<byte>)
    requires 0x1_0000 <= c as int
    ensures DecodeFirst(EncodeChar(c) + rest) == Some((c, 4))
  {
    Split4(c as int);
  }

  lemma {:induction false} EncodeAppend(a: string, b: string)
    ensures Encode(a + b) == Encode(a) + Encode(b)
  {
    if a != [] {
      EncodeAppend(a[1..], b);
      EncodeAppendStep(a, b);
    } else {
      assert a + b == b;
    }
  }

  lemma EncodeAppendStep(a: string, b: string)
    requires a != [] && Encode(a[1..] + b) == Encode(a[1..]) + Encode(b)
    ensures Encode(a + b) == Encode(a) + Encode(b)
  {
    assert (a + b)[0] == a[0] && (a + b)[1..] == a[1..] + b;
    EncodeUnfold(a + b);
    EncodeUnfold(a);
    AppendAssociative(EncodeChar(a[0]), Encode(a[1..]), Encode(b));
  }

  lemma EncodeUnfold(s: string)
    requires s != []
    ensures Encode(s) == EncodeChar(s[0]) + Encode(s[1..])
  {
  }

  lemma ConsAppend(s: string, t: string)
    requires s != []
    ensures [s[0]] + (s[1..] + t) == s + t
  {
  }

  /** A byte string that starts with a well-formed character decodes to it followed by the rest. */
  lemma DecodeCons(b: seq<byte>, c: char, n: nat, t: string)
    requires |b| > 0 && DecodeFirst(b) == Some((c, n)) && Decode(b[n..]) == Ok(t)
    ensures Decode(b) == Ok([c] + t)
  {
  }

  /** Decoding an encoded prefix yields its characters and then whatever the rest decodes to. */
  lemma {:induction false} DecodeEncodePrefix(s: string, rest: seq<byte>, t: string)
    requires Decode(rest) == Ok(t)
    ensures Decode(Encode(s) + rest) == Ok(s + t)
  {
    if s != [] {
      DecodeEncodePrefix(s[1..], rest, t);
      DecodeEncodeStep(s, rest, t);
    } else {
      EmptyPrefix(s, rest, t);
    }
  }

  lemma EmptyPrefix(s: string, rest: seq<byte>, t: string)
    requires s == []
    ensures Encode(s) + rest == rest && s + t == t
  {
  }

  /** The inductive step: one more encoded character in front. */
  lemma DecodeEncodeStep(s: string, rest: seq<byte>, t: string)
    requires s != [] && Decode(Encode(s[1..]) + rest) == Ok(s[1..] + t)
    ensures Decode(Encode(s) + rest) == Ok(s + t)
  {
    EncodeCons(s, rest);
    DecodeCharThen(s[0], Encode(s[1..]) + rest, s[1..] + t);
    ConsAppend(s, t);
  }

  lemma EncodeCons(s: string, rest: seq<byte>)
    requires s != []
    ensures Encode(s) + rest == EncodeChar(s[0]) + (Encode(s[1..]) + rest)
  {
  }

  /** An encoded character in front of well-formed bytes decodes to that character in front. */
  lemma DecodeCharThen(c: char, more: seq<byte>, u: string)
    requires Decode(more) == Ok(u)
    ensures Decode(EncodeChar(c) + more) == Ok([c] + u)
  {
    var b := EncodeChar(c) + more;
    DecodeFirstEncodeChar(c, more);
    assert b[|EncodeChar(c)|..] == more;
    DecodeCons(b, c, |EncodeChar(c)|, u);
  }

  /** Encoding and then decoding gives back the string. */
  lemma DecodeEncode(s: string)
    ensures Decode(Encode(s)) == Ok(s)
  {
    DecodeEncodePrefix(s, [], []);
    assert Encode(s) + [] == Encode(s);
    assert s + [] == s;
  }

  /** A string of NUL characters. */
  function Nuls(n: nat): (s: string)
    ensures |s| == n && forall i :: 0 <= i < n ==> s[i] == '\0'
  {
    seq(n, _ => '\0')
  }

  /** Zero bytes decode to NUL characters. */
  lemma {:induction false} DecodeZeros(n: nat)
    ensures Decode(seq(n, _ => 0)) == Ok(Nuls(n))
  {
    if n > 0 {
      var z: seq<byte> := seq(n, _ => 0);
      assert z[1..] == seq(n - 1, _ => 0);
      DecodeZeros(n - 1);
      assert Nuls(n) == ['\0'] + Nuls(n - 1);
    }
  }

  /** `s.rstrip("\0")`: drop trailing NUL characters. */
  function RStripNul(s: string): (r: string)
    ensures r <= s && (r == [] || r[|r| - 1] != '\0')
    ensures forall i :: |r| <= i < |s| ==> s[i] == '\0'
  {
    if s == [] || s[|s| - 1] != '\0' then s else RStripNul(s[..|s| - 1])
  }

  /** Trailing NULs added to a string are stripped together with its own. */
  lemma {:induction false} RStripNulPadded(s: string, n: nat)
    ensures RStripNul(s + Nuls(n)) == RStripNul(s)
  {
    if n > 0 {
      var t := s + Nuls(n);
      assert t[..|t| - 1] == s + Nuls(n - 1);
      RStripNulPadded(s, n - 1);
    } else {
      assert s + Nuls(n) == s;
    }
  }
}
