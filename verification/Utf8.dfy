/** UTF-8 as section 3 of RFC 3629 defines it, and where a string may be sliced. */
module Utf8 {
  import opened Prelude

  predicate IsAscii(b: byte) {
    b < 0x80
  }

  predicate IsContinuation(b: byte) {
    0x80 <= b < 0xC0
  }

  /** Length of the well-formed character that `s` starts with, or 0 when there is none. */
  function CharLength(s: seq<byte>): nat {
    if s == [] then 0
    else if s[0] < 0x80 then 1
    else if |s| >= 2 && 0xC2 <= s[0] < 0xE0 && IsContinuation(s[1]) then 2
    else if |s| >= 3 && 0xE0 <= s[0] < 0xF0 && IsContinuation(s[1]) && IsContinuation(s[2])
      && (s[0] == 0xE0 ==> 0xA0 <= s[1]) && (s[0] == 0xED ==> s[1] < 0xA0) then 3
    else if |s| >= 4 && 0xF0 <= s[0] < 0xF5 && IsContinuation(s[1]) && IsContinuation(s[2]) && IsContinuation(s[3])
      && (s[0] == 0xF0 ==> 0x90 <= s[1]) && (s[0] == 0xF4 ==> s[1] < 0x90) then 4
    else 0
  }

  predicate ValidUtf8(s: seq<byte>) {
    s == [] || (CharLength(s) > 0 && ValidUtf8(s[CharLength(s)..]))
  }

  /** The test by which Rust accepts a slice position of a `str`. */
  predicate IsBoundary(s: seq<byte>, i: nat) {
    i == 0 || i == |s| || (i < |s| && !IsContinuation(s[i]))
  }

  lemma FirstCharacter(s: seq<byte>, t: seq<byte>)
    requires CharLength(s) > 0
    ensures CharLength(s) <= |s| && CharLength(s + t) == CharLength(s)
    ensures !IsContinuation(s[0])
    ensures forall i :: 0 < i < CharLength(s) ==> IsContinuation(s[i])
    ensures CharLength(s[..CharLength(s)]) == CharLength(s)
  {
  }

  lemma {:induction false} ConcatValid(s: seq<byte>, t: seq<byte>)
    requires ValidUtf8(s) && ValidUtf8(t)
    ensures ValidUtf8(s + t)
    decreases |s|
  {
    if s == [] {
      assert s + t == t;
    } else {
      var n := CharLength(s);
      FirstCharacter(s, t);
      assert (s + t)[n..] == s[n..] + t;
      ConcatValid(s[n..], t);
    }
  }

  lemma CutTwice(s: seq<byte>, n: nat, i: nat)
    requires n <= i <= |s|
    ensures s[i..] == s[n..][i - n..] && s[..i] == s[..n] + s[n..][..i - n]
  {
  }

  lemma OneCharacter(s: seq<byte>)
    requires CharLength(s) > 0
    ensures CharLength(s) <= |s| && ValidUtf8(s[..CharLength(s)])
  {
    var n := CharLength(s);
    FirstCharacter(s, []);
    assert s[..n][n..] == [];
  }

  /** A valid string may be cut at any boundary, and both halves are valid. */
  lemma {:induction false} SplitValid(s: seq<byte>, i: nat)
    requires ValidUtf8(s) && i <= |s| && IsBoundary(s, i)
    ensures ValidUtf8(s[..i]) && ValidUtf8(s[i..])
    decreases |s|
  {
    if i == 0 {
      assert s[i..] == s;
    } else if i == |s| {
      assert s[..i] == s;
    } else {
      var n := CharLength(s);
      FirstCharacter(s, []);
      OneCharacter(s);
      var tail := s[n..];
      assert ValidUtf8(tail) && IsBoundary(tail, i - n);
      SplitValid(tail, i - n);
      CutTwice(s, n, i);
      ConcatValid(s[..n], tail[..i - n]);
    }
  }

  /** What the scanner relies on: the position after an ASCII byte is a boundary. */
  ghost predicate Sliceable(s: seq<byte>) {
    forall i {:trigger IsAscii(s[i])} :: 0 <= i < |s| && IsAscii(s[i]) ==> IsBoundary(s, i + 1)
  }

  /** Every valid string is sliceable around its ASCII bytes. */
  lemma ValidIsSliceable(s: seq<byte>)
    requires ValidUtf8(s)
    ensures Sliceable(s)
  {
    forall i | 0 <= i < |s| && IsAscii(s[i]) ensures IsBoundary(s, i + 1) {
      SplitValid(s, i);
      assert s[i..][1..] == s[i + 1..];
      if i + 1 < |s| {
        FirstCharacter(s[i + 1..], []);
      }
    }
  }

  lemma AfterAscii(s: seq<byte>, i: nat)
    requires Sliceable(s) && i < |s| && IsAscii(s[i])
    ensures IsBoundary(s, i) && IsBoundary(s, i + 1)
  {
  }

  /** Slicing a string, as `&input[start..end]` does: defined only on boundaries. */
  function Slice(s: seq<byte>, start: nat, end: nat): seq<byte>
    requires start <= end <= |s| && IsBoundary(s, start) && IsBoundary(s, end)
  {
    s[start..end]
  }

  // ----- valid strings are the encodings of characters

  /** A Unicode scalar value. */
  predicate IsScalar(c: nat) {
    c < 0xD800 || 0xE000 <= c < 0x11_0000
  }

  /** The octets of one character, as the table of RFC 3629 lays them out. */
  function Encode(c: nat): (s: seq<byte>)
    requires IsScalar(c)
  {
    if c < 0x80 then [c as byte]
    else if c < 0x800 then [(0xC0 + c / 64) as byte, (0x80 + c % 64) as byte]
    else if c < 0x1_0000 then [(0xE0 + c / 4096) as byte, (0x80 + c / 64 % 64) as byte, (0x80 + c % 64) as byte]
    else [(0xF0 + c / 262144) as byte, (0x80 + c / 4096 % 64) as byte, (0x80 + c / 64 % 64) as byte, (0x80 + c % 64) as byte]
  }

  function EncodeAll(text: seq<nat>): seq<byte>
    requires forall i :: 0 <= i < |text| ==> IsScalar(text[i])
  {
    if text == [] then [] else Encode(text[0]) + EncodeAll(text[1..])
  }

  lemma EncodedIsCharacter(c: nat)
    requires IsScalar(c)
    ensures CharLength(Encode(c)) == |Encode(c)| > 0
  {
  }

  /** The character that a string begins with. */
  function Decode(s: seq<byte>): nat
    requires CharLength(s) > 0
  {
    var n := CharLength(s);
    if n == 1 then s[0] as nat
    else if n == 2 then (s[0] as int - 0xC0) * 64 + (s[1] as int - 0x80)
    else if n == 3 then (s[0] as int - 0xE0) * 4096 + (s[1] as int - 0x80) * 64 + (s[2] as int - 0x80)
    else (s[0] as int - 0xF0) * 262144 + (s[1] as int - 0x80) * 4096 + (s[2] as int - 0x80) * 64 + (s[3] as int - 0x80)
  }

  lemma Digits(a: nat, b: nat)
    requires b < 64
    ensures (a * 64 + b) / 64 == a && (a * 64 + b) % 64 == b
  {
  }

  lemma ThreeDigits(a: nat, b: nat, c: nat)
    requires b < 64 && c < 64
    ensures var n := a * 4096 + b * 64 + c; n / 4096 == a && n / 64 % 64 == b && n % 64 == c
  {
    Digits(a, b);
    Digits(a * 64 + b, c);
  }

  lemma FourDigits(a: nat, b: nat, c: nat, d: nat)
    requires b < 64 && c < 64 && d < 64
    ensures var n := a * 262144 + b * 4096 + c * 64 + d;
      n / 262144 == a && n / 4096 % 64 == b && n / 64 % 64 == c && n % 64 == d
  {
    Digits(a, b);
    Digits(a * 64 + b, c);
    Digits((a * 64 + b) * 64 + c, d);
  }

  lemma CharacterIsEncoded(s: seq<byte>)
    requires CharLength(s) > 0
    ensures CharLength(s) <= |s| && IsScalar(Decode(s)) && Encode(Decode(s)) == s[..CharLength(s)]
  {
    var n := CharLength(s);
    if n == 1 {
      OneOctet(s);
    } else if n == 2 {
      TwoOctets(s);
    } else if n == 3 {
      ThreeOctets(s);
    } else {
      FourOctets(s);
    }
  }

  lemma OneOctet(s: seq<byte>)
    requires CharLength(s) == 1
    ensures IsScalar(Decode(s)) && Encode(Decode(s)) == s[..1]
  {
  }

  lemma TwoOctets(s: seq<byte>)
    requires CharLength(s) == 2
    ensures |s| >= 2 && IsScalar(Decode(s)) && Encode(Decode(s)) == s[..2]
  {
    Digits(s[0] as int - 0xC0, s[1] as int - 0x80);
    assert s[..2] == [s[0], s[1]];
  }

  lemma ThreeOctets(s: seq<byte>)
    requires CharLength(s) == 3
    ensures |s| >= 3 && IsScalar(Decode(s)) && Encode(Decode(s)) == s[..3]
  {
    ThreeDigits(s[0] as int - 0xE0, s[1] as int - 0x80, s[2] as int - 0x80);
    assert s[..3] == [s[0], s[1], s[2]];
  }

  lemma FourOctets(s: seq<byte>)
    requires CharLength(s) == 4
    ensures |s| >= 4 && IsScalar(Decode(s)) && Encode(Decode(s)) == s[..4]
  {
    FourDigits(s[0] as int - 0xF0, s[1] as int - 0x80, s[2] as int - 0x80, s[3] as int - 0x80);
    assert s[..4] == [s[0], s[1], s[2], s[3]];
  }

  /** Every text of characters encodes to a valid string. */
  lemma {:induction false} EncodedIsValid(text: seq<nat>)
    requires forall i :: 0 <= i < |text| ==> IsScalar(text[i])
    ensures ValidUtf8(EncodeAll(text))
  {
    if text != [] {
      EncodedIsValid(text[1..]);
      var first, rest := Encode(text[0]), EncodeAll(text[1..]);
      EncodedIsCharacter(text[0]);
      FirstCharacter(first, rest);
      assert (first + rest)[|first|..] == rest;
    }
  }

  /** Every valid string is the encoding of a text of characters. */
  lemma {:induction false} ValidIsEncoded(s: seq<byte>) returns (text: seq<nat>)
    requires ValidUtf8(s)
    ensures (forall i :: 0 <= i < |text| ==> IsScalar(text[i])) && EncodeAll(text) == s
  {
    if s == [] {
      text := [];
    } else {
      var n := CharLength(s);
      CharacterIsEncoded(s);
      var rest := ValidIsEncoded(s[n..]);
      text := [Decode(s)] + rest;
      assert text[1..] == rest && s == s[..n] + s[n..];
    }
  }
}
