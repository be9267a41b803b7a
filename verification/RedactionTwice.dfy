/**
 Redaction is not idempotent. One text that shows it: an authorization header whose credential has
 been replaced by the marker is redacted once more, because the scheme word is then taken for the
 secret. `RedactionStable` says for which texts a second pass changes nothing.
 */
module RedactionTwice {
  import opened Prelude
  import opened Utf8
  import opened SecretShapes
  import opened Redaction

  /** `Authorization: Bearer ` */
  const HEADER: seq<byte> := [
    65, 117, 116, 104, 111, 114, 105, 122, 97, 116, 105, 111, 110, 58, 32, 66, 101, 97, 114, 101, 114, 32]

  /** `Authorization: Bearer x` */
  const ONE_SECRET: seq<byte> := HEADER + [120]

  /** `Authorization: Bearer [REDACTED]` */
  const ONCE: seq<byte> := HEADER + REDACTED

  /** `Authorization: [REDACTED] [REDACTED]` */
  const TWICE: seq<byte> := HEADER[..15] + REDACTED + [32] + REDACTED

  lemma {:induction false} NormalizeAlphanumeric(key: seq<byte>)
    requires forall i :: 0 <= i < |key| ==> IsAlphanumeric(key[i])
    ensures |NormalizeKey(key)| == |key|
    ensures forall i :: 0 <= i < |key| ==> NormalizeKey(key)[i] == ToLower(key[i]) as char
  {
    if key != [] {
      NormalizeAlphanumeric(key[1..]);
    }
  }

  /** The header with a short tail that brings no separator, scheme word or web token of its own. */
  ghost predicate HeaderText(s: seq<byte>) {
    && 23 <= |s| <= 41 && s[..22] == HEADER
    && forall i :: 22 <= i < |s| ==> IsAscii(s[i]) && s[i] !in [58, 61, 66, 98, 121]
  }

  /** What the scanners see of such a text. */
  ghost predicate Shape(s: seq<byte>) {
    && 23 <= |s| <= 41
    && (forall i :: 0 <= i < |s| ==> IsAscii(s[i]) && s[i] != 121)
    && (forall i :: 0 <= i < 13 ==> IsAlphanumeric(s[i]))
    && (forall i :: 15 <= i < 21 ==> IsAlphanumeric(s[i]))
    && (forall i :: 0 <= i < |s| && i != 13 ==> s[i] != 58 && s[i] != 61)
    && (forall i :: 0 <= i < |s| && i != 15 ==> s[i] != 66 && s[i] != 98)
    && s[13] == 58 && s[14] == 32 && s[21] == 32
    && s[15..21] == [66, 101, 97, 114, 101, 114]
  }

  lemma HeaderShape(s: seq<byte>)
    requires HeaderText(s)
    ensures Shape(s)
  {
    assert forall i :: 0 <= i < 22 ==> s[i] == s[..22][i];
    assert s[15..21] == HEADER[15..21];
  }

  lemma KeyName(s: seq<byte>)
    requires HeaderText(s)
    ensures NormalizeKey(s[0..13]) == "authorization" && IsSensitiveKey("authorization")
  {
    assert s[0..13] == s[..22][..13];
    var key := HEADER[..13];
    assert forall i :: 0 <= i < 13 ==> IsAlphanumeric(HEADER[i]);
    NormalizeAlphanumeric(key);
    var name := NormalizeKey(key);
    assert forall i :: 0 <= i < 13 ==> name[i] == "authorization"[i];
    assert SENSITIVE_KEYS[3] == "authorization";
  }

  lemma KeyIsFound(s: seq<byte>)
    requires Shape(s)
    ensures KeyBefore(s, 13) == Some(Range(0, 13))
  {
    assert IsAlphanumeric(s[12]);
    assert RunStart(s, 13, IsHorizontalSpace) == 13;
    assert RunStart(s, 13, IsKeyByte) == 0;
  }

  lemma SchemeIsValue(s: seq<byte>)
    requires Shape(s)
    ensures SkipSpace(s, 14) == 15 && ValueAt(s, 15) == Some(Range(15, 21))
  {
    assert s[15..21][0] == s[15] == 66;
    assert s[15..][0] == 66 && REDACTED[0] == 91;
    assert RunEnd(s, 15, NotDelimiter) == 21;
  }

  lemma SchemeIsBearer(s: seq<byte>)
    requires Shape(s) && !IsHorizontalSpace(s[22])
    ensures AfterScheme(s, Range(15, 21), "bearer") == Some(21) && SkipSpace(s, 21) == 22
  {
    var word := s[15..21];
    assert EqualsIgnoreCase(word, "bearer");
  }

  /** The assigned value is the scheme word, and the text behind it decides what the secret is. */
  lemma HeaderSecret(s: seq<byte>)
    requires HeaderText(s) && !IsHorizontalSpace(s[22])
    ensures var credential := ValueAt(s, 22);
      AssignedSecret(SecretNames(), s, 13) == Some(if credential.Some? then credential.value else Range(15, 21))
  {
    HeaderShape(s);
    KeyIsFound(s);
    KeyName(s);
    SchemeIsValue(s);
    SchemeIsBearer(s);
    assert NamesSecret(SecretNames(), s, Range(0, 13));
    assert SecretValue(s, 13, true) == Some(AuthorizationSecret(s, Range(15, 21)));
  }

  lemma SchemeStarts(s: seq<byte>, word: string, k: nat, i: nat)
    requires SchemeAt(s, word, k) && i < |word|
    ensures IsByte(ToLower(s[k + i]), word[i])
  {
    assert s[k..k + |word|][i] == s[k + i];
  }

  lemma OnlyBearer(s: seq<byte>, k: nat)
    requires Shape(s)
    ensures !SchemeAt(s, "basic", k)
    ensures SchemeAt(s, "bearer", k) ==> k == 15
  {
    assert s[15..21][1] == s[16];
    if SchemeAt(s, "bearer", k) {
      SchemeStarts(s, "bearer", k, 0);
    }
    if SchemeAt(s, "basic", k) {
      SchemeStarts(s, "basic", k, 0);
      SchemeStarts(s, "basic", k, 1);
    }
  }

  lemma NoWebToken(s: seq<byte>, i: nat)
    requires Shape(s)
    ensures TokenAt(JwtTokens(), s, i) == None
  {
    if i < |s| {
      var text := s[i..];
      assert forall j :: 0 <= j < |text| ==> text[j] != 121;
      assert HasPrefix(text, "eyJ") ==> IsByte(text[1], "eyJ"[1]);
    }
  }

  lemma NoLongToken(s: seq<byte>, i: nat)
    requires Shape(s)
    ensures TokenAt(PrefixedTokens(), s, i) == None
  {
    if TokenStart(PrefixedTokens(), s, i) {
      var end := RunEnd(s, i, IsTokenByte);
      assert !IsTokenByte(s[13]) && !IsTokenByte(s[21]);
      assert |s[i..end]| < 20;
      ShortIsNotPrefixed(s[i..end]);
    }
  }

  lemma ShortIsNotPrefixed(s: seq<byte>)
    requires |s| < 20
    ensures !LooksLikePrefixed(s)
  {
  }

  /** Such a text holds one secret, the assigned one, when what follows the scheme word does not look like a token. */
  lemma OneSecret(s: seq<byte>, secret: Range, r: Range)
    requires Shape(s) && AssignedSecret(SecretNames(), s, 13) == Some(secret)
    requires Credential(s, BearerScheme(), 15).None?
    ensures IsSecret(s, r) <==> r == secret
  {
    OneAssignment(s, secret, r);
    NoOtherSecret(s, r);
  }

  lemma OneAssignment(s: seq<byte>, secret: Range, r: Range)
    requires Shape(s) && AssignedSecret(SecretNames(), s, 13) == Some(secret)
    ensures Found(Assignments(SecretNames(), s), |s|, r) <==> r == secret
  {
    assert Assignments(SecretNames(), s)(13) == Some(secret);
    forall i | 0 <= i < |s| && i != 13 ensures Assignments(SecretNames(), s)(i) == None {
      assert !IsSeparator(s[i]);
    }
  }

  lemma NoOtherSecret(s: seq<byte>, r: Range)
    requires Shape(s) && Credential(s, BearerScheme(), 15).None?
    ensures !Found(Credentials(s, BearerScheme()), |s|, r) && !Found(Credentials(s, BasicScheme()), |s|, r)
    ensures !Found(Tokens(JwtTokens(), s), |s|, r) && !Found(Tokens(PrefixedTokens(), s), |s|, r)
  {
    forall k | 0 <= k < |s|
      ensures Credentials(s, BearerScheme())(k) == None && Credentials(s, BasicScheme())(k) == None
      ensures Tokens(JwtTokens(), s)(k) == None && Tokens(PrefixedTokens(), s)(k) == None
    {
      OnlyBearer(s, k);
      NoWebToken(s, k);
      NoLongToken(s, k);
    }
  }

  lemma NoCredential(s: seq<byte>)
    requires Shape(s) && !IsHorizontalSpace(s[22])
    requires var value := ValueAt(s, 22); value.Some? ==> value.value.end - value.value.start < 8
    ensures Credential(s, BearerScheme(), 15).None?
  {
    SchemeIsBearer(s);
  }

  /** The secret of such a text, when it is short, is all that redaction replaces. */
  lemma OnlySecret(s: seq<byte>, secret: Range, merged: seq<Range>)
    requires HeaderText(s) && !IsHorizontalSpace(s[22]) && SecretsOf(s, merged)
    requires var value := ValueAt(s, 22);
      && (value.Some? ==> value.value.end - value.value.start < 8)
      && secret == if value.Some? then value.value else Range(15, 21)
    ensures merged == [secret]
    ensures Ordered(s, merged) && Replace(s, merged, REDACTED) == s[..secret.start] + REDACTED + s[secret.end..]
  {
    HeaderShape(s);
    HeaderSecret(s);
    NoCredential(s);
    forall r ensures IsSecret(s, r) <==> r == secret {
      OneSecret(s, secret, r);
    }
    AsciiIsValid(s);
    EverySecretFits(s, secret);
    OneRange(s, secret);
    SecretsAreUnique(s, merged, [secret]);
    assert Replace(s[..secret.start], [], REDACTED) == s[..secret.start];
  }

  lemma OneRange(s: seq<byte>, secret: Range)
    requires Nonempty(s, secret) && secret.end - secret.start < 8
    requires forall r :: IsSecret(s, r) <==> r == secret
    ensures SecretsOf(s, [secret])
  {
    assert Kept(s, secret);
    forall p ensures Covers([secret], p) <==> Inside(secret, p) {
      assert [secret][0] == secret;
    }
  }

  /** Redacting the redacted text replaces its scheme word as well. */
  method RedactTwice() returns (once: seq<byte>, twice: seq<byte>)
    ensures once == ONCE && twice == TWICE && once != twice
  {
    TextsAreHeaders();
    var merged, again;
    once, merged := RedactText(ONE_SECRET);
    OnlySecret(ONE_SECRET, Range(22, 23), merged);
    twice, again := RedactText(ONCE);
    OnlySecret(ONCE, Range(15, 21), again);
    LastBytes();
  }

  lemma TextsAreHeaders()
    ensures HeaderText(ONE_SECRET) && ValidUtf8(ONE_SECRET) && ONE_SECRET[22] == 120
    ensures HeaderText(ONCE) && ValidUtf8(ONCE) && ONCE[22] == 91
    ensures ValueAt(ONE_SECRET, 22) == Some(Range(22, 23)) && ValueAt(ONCE, 22) == None
  {
    assert ONE_SECRET[..22] == HEADER && ONCE[..22] == HEADER;
    HeaderShape(ONE_SECRET);
    HeaderShape(ONCE);
    AsciiIsValid(ONE_SECRET);
    AsciiIsValid(ONCE);
    assert ONE_SECRET[22..] == [120] && ONCE[22..] == REDACTED;
    assert RunEnd(ONE_SECRET, 22, NotDelimiter) == 23;
  }

  lemma LastBytes()
    ensures ONE_SECRET[..22] + REDACTED + ONE_SECRET[23..] == ONCE
    ensures ONCE[..15] + REDACTED + ONCE[21..] == TWICE && ONCE != TWICE
  {
    assert ONCE[..15] == HEADER[..15];
    assert ONCE[21..] == [32] + REDACTED;
    assert ONCE[15] == 66 && TWICE[15] == 91;
  }
}
