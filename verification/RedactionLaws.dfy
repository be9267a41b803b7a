/**
 What redaction hides, said of the text alone: the values of sensitive keys, the credentials of
 authorization headers and of bearer and basic schemes, and tokens.
 */
module RedactionLaws {
  import opened Prelude
  import opened Utf8
  import opened SecretShapes
  import opened Redaction

  predicate IsBackslash(b: byte) {
    b == 92
  }

  /** A position behind `n` backslashes is escaped iff `n` is odd. */
  lemma EscapedMeans(s: seq<byte>, i: nat, n: nat)
    requires n <= i <= |s| && (forall k :: i - n <= k < i ==> IsBackslash(s[k]))
    requires i > n ==> !IsBackslash(s[i - n - 1])
    ensures Escaped(s, i) <==> n % 2 == 1
  {
    var start := RunStart(s, i, b => IsByte(b, '\\'));
    assert start == i - n;
  }

  // ----- keys and values as they stand in a text

  predicate AllSpace(s: seq<byte>, i: nat, j: nat) {
    i <= j <= |s| && forall k :: i <= k < j ==> IsHorizontalSpace(s[k])
  }

  /** Between `i` and `j` every quote of this kind is escaped. */
  predicate NoQuote(s: seq<byte>, i: nat, j: nat, quote: byte) {
    i <= j <= |s| && forall k :: i <= k < j && s[k] == quote ==> Escaped(s, k)
  }

  /** A quoted key: it stands between quotes, of which the first is not escaped. */
  predicate QuotedKey(s: seq<byte>, sep: nat, i: nat, j: nat) {
    && 0 < i < j < sep < |s| && IsQuote(s[j]) && s[i - 1] == s[j] && !Escaped(s, i - 1)
    && NoQuote(s, i, j, s[j]) && AllSpace(s, j + 1, sep)
  }

  /** A bare key: a whole run of key bytes. */
  predicate BareKey(s: seq<byte>, sep: nat, i: nat, j: nat) {
    && i < j <= sep < |s| && (forall k :: i <= k < j ==> IsKeyByte(s[k]))
    && (i > 0 ==> !IsKeyByte(s[i - 1])) && AllSpace(s, j, sep)
  }

  /** A quoted value behind position `from`: up to the first unescaped quote of its kind, or the end. */
  predicate QuotedValue(s: seq<byte>, from: nat, i: nat, j: nat) {
    && from < i < j <= |s| && AllSpace(s, from, i - 1) && IsQuote(s[i - 1])
    && NoQuote(s, i, j, s[i - 1]) && (j < |s| ==> s[j] == s[i - 1] && !Escaped(s, j))
  }

  /** A bare value: up to the first delimiter, or the end. */
  predicate BareValue(s: seq<byte>, from: nat, i: nat, j: nat) {
    && from <= i < j <= |s| && AllSpace(s, from, i)
    && (forall k :: i <= k < j ==> !IsValueDelimiter(s[k])) && (j < |s| ==> IsValueDelimiter(s[j]))
    && !(REDACTED <= s[i..])
  }

  lemma QuotedKeyIsFound(s: seq<byte>, sep: nat, i: nat, j: nat)
    requires QuotedKey(s, sep, i, j)
    ensures KeyBefore(s, sep) == Some(Range(i, j))
  {
    assert RunStart(s, sep, IsHorizontalSpace) == j + 1;
    var opening := OpeningQuote(s, j, s[j]);
    assert Closes(s, i - 1, s[j]);
    assert opening == Some(i - 1);
  }

  lemma BareKeyIsFound(s: seq<byte>, sep: nat, i: nat, j: nat)
    requires BareKey(s, sep, i, j)
    ensures KeyBefore(s, sep) == Some(Range(i, j))
  {
    assert IsKeyByte(s[j - 1]);
    assert RunStart(s, sep, IsHorizontalSpace) == j;
    assert RunStart(s, j, IsKeyByte) == i;
  }

  lemma QuotedValueIsFound(s: seq<byte>, from: nat, i: nat, j: nat)
    requires QuotedValue(s, from, i, j)
    ensures SkipSpace(s, from) == i - 1 && ValueAt(s, i - 1) == Some(Range(i, j))
  {
    assert REDACTED[0] == 91 && s[i - 1..][0] == s[i - 1];
    var quote := s[i - 1];
    assert forall k :: i <= k < j ==> !Closes(s, k, quote);
    assert j < |s| ==> Closes(s, j, quote);
    assert ClosingQuote(s, i, quote) == j;
  }

  lemma BareValueIsFound(s: seq<byte>, from: nat, i: nat, j: nat)
    requires BareValue(s, from, i, j)
    ensures SkipSpace(s, from) == i && ValueAt(s, i) == Some(Range(i, j))
  {
    assert !IsValueDelimiter(s[i]);
    assert RunEnd(s, i, NotDelimiter) == j;
  }

  predicate KeyStands(s: seq<byte>, sep: nat, i: nat, j: nat) {
    QuotedKey(s, sep, i, j) || BareKey(s, sep, i, j)
  }

  predicate ValueStands(s: seq<byte>, from: nat, i: nat, j: nat) {
    QuotedValue(s, from, i, j) || BareValue(s, from, i, j)
  }

  lemma KeyIsFound(s: seq<byte>, sep: nat, i: nat, j: nat)
    requires KeyStands(s, sep, i, j)
    ensures KeyBefore(s, sep) == Some(Range(i, j))
  {
    if QuotedKey(s, sep, i, j) {
      QuotedKeyIsFound(s, sep, i, j);
    } else {
      BareKeyIsFound(s, sep, i, j);
    }
  }

  lemma ValueIsFound(s: seq<byte>, from: nat, i: nat, j: nat)
    requires ValueStands(s, from, i, j)
    ensures from <= |s| && ValueAt(s, SkipSpace(s, from)) == Some(Range(i, j))
  {
    if QuotedValue(s, from, i, j) {
      QuotedValueIsFound(s, from, i, j);
    } else {
      BareValueIsFound(s, from, i, j);
    }
  }

  // ----- assignments

  ghost predicate CoversAll(merged: seq<Range>, i: nat, j: nat) {
    forall p :: i <= p < j ==> Covers(merged, p)
  }

  /** The ranges cover what these secrets cover. */
  ghost predicate CoversSecrets(s: seq<byte>, merged: seq<Range>, secret: Range -> bool) {
    forall r, p :: secret(r) && Kept(s, r) && Inside(r, p) ==> Covers(merged, p)
  }

  lemma OneIsCovered(s: seq<byte>, merged: seq<Range>, secret: Range -> bool, r: Range)
    requires CoversSecrets(s, merged, secret) && secret(r) && Kept(s, r)
    ensures CoversAll(merged, r.start, r.end)
  {
    forall p | r.start <= p < r.end ensures Covers(merged, p) {
      assert Inside(r, p);
    }
  }

  ghost function Secrets(s: seq<byte>): Range -> bool {
    r => IsSecret(s, r)
  }

  lemma SecretsAreCovered(s: seq<byte>, merged: seq<Range>)
    requires SecretsOf(s, merged)
    ensures CoversSecrets(s, merged, Secrets(s))
  {
  }

  lemma SecretIsCovered(s: seq<byte>, merged: seq<Range>, r: Range)
    requires ValidUtf8(s) && SecretsOf(s, merged) && Secrets(s)(r)
    requires r.start <= r.end <= |s| && s[r.start..r.end] != REDACTED
    ensures CoversAll(merged, r.start, r.end)
  {
    EverySecretFits(s, r);
    SecretsAreCovered(s, merged);
    OneIsCovered(s, merged, Secrets(s), r);
  }

  lemma AssignedIsCovered(s: seq<byte>, merged: seq<Range>, sep: nat, r: Range)
    requires ValidUtf8(s) && SecretsOf(s, merged) && sep < |s| && AssignedSecret(SecretNames(), s, sep) == Some(r)
    requires r.start <= r.end <= |s| && s[r.start..r.end] != REDACTED
    ensures CoversAll(merged, r.start, r.end)
  {
    assert Assignments(SecretNames(), s)(sep) == Some(r);
    assert Found(Assignments(SecretNames(), s), |s|, r);
    SecretIsCovered(s, merged, r);
  }

  /** The key names a secret: anywhere, or as a query parameter. */
  predicate IsSecretName(s: seq<byte>, i: nat, j: nat)
    requires i <= j <= |s|
  {
    NamesSecret(SecretNames(), s, Range(i, j))
  }

  lemma SecretNameMeans(s: seq<byte>, i: nat, j: nat)
    requires i <= j <= |s|
    ensures var name := NormalizeKey(s[i..j]);
      IsSecretName(s, i, j) <==>
        IsSensitiveKey(name) || (i > 0 && IsQueryMark(s[i - 1]) && IsQueryOnlyKey(name))
  {
  }

  lemma AssignmentIsFound(names: KeyNames, s: seq<byte>, sep: nat, i: nat, j: nat)
    requires KeyStands(s, sep, i, j) && IsSeparator(s[sep])
    ensures i <= j <= |s|
    ensures AssignedSecret(names, s, sep) ==
      if NamesSecret(names, s, Range(i, j)) then SecretValue(s, sep, IsAuthorizationKey(NormalizeKey(s[i..j]))) else None
  {
    KeyIsFound(s, sep, i, j);
  }

  lemma AssignedValueIsFound(s: seq<byte>, sep: nat, v: nat, w: nat, authorization: bool)
    requires sep < |s| && ValueStands(s, sep + 1, v, w)
    ensures v <= w <= |s|
    ensures SecretValue(s, sep, authorization) ==
      Some(if authorization then AuthorizationSecret(s, Range(v, w)) else Range(v, w))
  {
    ValueIsFound(s, sep + 1, v, w);
  }

  /** A secret name, a separator and a value, side by side. */
  lemma AssignmentIsSecret(names: KeyNames, s: seq<byte>, sep: nat, i: nat, j: nat, v: nat, w: nat)
    requires KeyStands(s, sep, i, j) && IsSeparator(s[sep]) && ValueStands(s, sep + 1, v, w)
    requires NamesSecret(names, s, Range(i, j))
    ensures v <= w <= |s|
    ensures AssignedSecret(names, s, sep) ==
      Some(if IsAuthorizationKey(NormalizeKey(s[i..j])) then AuthorizationSecret(s, Range(v, w)) else Range(v, w))
  {
    AssignmentIsFound(names, s, sep, i, j);
    AssignedValueIsFound(s, sep, v, w, IsAuthorizationKey(NormalizeKey(s[i..j])));
  }

  /**
   In every valid text the value assigned to a sensitive key is hidden, whether key and value are
   quoted or bare.
   */
  lemma AssignedIsHidden(s: seq<byte>, merged: seq<Range>, sep: nat, i: nat, j: nat, v: nat, w: nat)
    requires ValidUtf8(s) && SecretsOf(s, merged)
    requires KeyStands(s, sep, i, j) && IsSeparator(s[sep]) && ValueStands(s, sep + 1, v, w)
    requires IsSecretName(s, i, j) && !IsAuthorizationKey(NormalizeKey(s[i..j])) && s[v..w] != REDACTED
    ensures CoversAll(merged, v, w)
  {
    AssignmentIsSecret(SecretNames(), s, sep, i, j, v, w);
    AssignedIsCovered(s, merged, sep, Range(v, w));
  }

  /** At a separator whose key names no secret there is nothing to hide. */
  lemma HarmlessIsLeft(s: seq<byte>, sep: nat, i: nat, j: nat)
    requires KeyStands(s, sep, i, j) && !IsSecretName(s, i, j)
    ensures AssignedSecret(SecretNames(), s, sep) == None
  {
    KeyIsFound(s, sep, i, j);
  }

  /** A marker that is found again as a secret of its own is left as it is. */
  lemma MarkerIsLeft(s: seq<byte>, merged: seq<Range>, v: nat, w: nat, p: nat)
    requires SecretsOf(s, merged) && v <= p < w <= |s| && s[v..w] == REDACTED
    requires forall r :: Secrets(s)(r) && Inside(r, p) ==> r == Range(v, w)
    ensures !Covers(merged, p)
  {
    assert forall r :: IsSecret(s, r) ==> Secrets(s)(r);
  }

  // ----- authorization headers

  predicate IsSchemeWord(text: seq<byte>) {
    EqualsIgnoreCase(text, "bearer") || EqualsIgnoreCase(text, "basic")
  }

  /** The text is a scheme word, white space, and more. */
  predicate BeginsWithScheme(text: seq<byte>, word: string) {
    |text| > |word| && EqualsIgnoreCase(text[..|word|], word) && IsHorizontalSpace(text[|word|])
  }

  /** A bare authorization value that is no scheme word is hidden to the end of its line. */
  lemma AuthorizationHidesTheLine(
    s: seq<byte>, merged: seq<Range>, sep: nat, i: nat, j: nat, v: nat, w: nat, eol: nat)
    requires ValidUtf8(s) && SecretsOf(s, merged)
    requires KeyStands(s, sep, i, j) && IsSeparator(s[sep]) && BareValue(s, sep + 1, v, w)
    requires IsSecretName(s, i, j) && IsAuthorizationKey(NormalizeKey(s[i..j])) && !IsSchemeWord(s[v..w])
    requires w <= eol <= |s| && (forall k :: w <= k < eol ==> !IsLineBreak(s[k])) && (eol < |s| ==> IsLineBreak(s[eol]))
    ensures CoversAll(merged, v, eol)
  {
    AssignmentIsSecret(SecretNames(), s, sep, i, j, v, w);
    LineIsSecret(s, sep, v, w, eol);
    NotTheMarker(s, v, eol);
    AssignedIsCovered(s, merged, sep, Range(v, eol));
  }

  lemma LineIsSecret(s: seq<byte>, sep: nat, v: nat, w: nat, eol: nat)
    requires sep < |s| && IsSeparator(s[sep]) && BareValue(s, sep + 1, v, w) && !IsSchemeWord(s[v..w])
    requires w <= eol <= |s| && (forall k :: w <= k < eol ==> !IsLineBreak(s[k])) && (eol < |s| ==> IsLineBreak(s[eol]))
    ensures AuthorizationSecret(s, Range(v, w)) == Range(v, eol)
  {
    BareValueIsNoQuoteOrScheme(s, sep, v, w);
    assert RunEnd(s, w, NotLineBreak) == eol;
  }

  lemma BareValueIsNoQuoteOrScheme(s: seq<byte>, sep: nat, v: nat, w: nat)
    requires sep < |s| && IsSeparator(s[sep]) && BareValue(s, sep + 1, v, w)
    ensures v > 0 && !IsQuote(s[v - 1])
    ensures !BeginsWithScheme(s[v..w], "bearer") && !BeginsWithScheme(s[v..w], "basic")
  {
    var text := s[v..w];
    assert forall k :: 0 <= k < |text| ==> text[k] == s[v + k] && !IsHorizontalSpace(text[k]);
  }

  lemma NotTheMarker(s: seq<byte>, v: nat, eol: nat)
    requires v <= eol <= |s| && !(REDACTED <= s[v..])
    ensures s[v..eol] != REDACTED
  {
    assert s[v..eol] <= s[v..];
  }

  /** A quoted authorization value that names no scheme is hidden as far as its quotes reach. */
  lemma AuthorizationHidesTheQuoted(s: seq<byte>, merged: seq<Range>, sep: nat, i: nat, j: nat, v: nat, w: nat)
    requires ValidUtf8(s) && SecretsOf(s, merged)
    requires KeyStands(s, sep, i, j) && IsSeparator(s[sep]) && QuotedValue(s, sep + 1, v, w)
    requires IsSecretName(s, i, j) && IsAuthorizationKey(NormalizeKey(s[i..j])) && s[v..w] != REDACTED
    requires !IsSchemeWord(s[v..w]) && !BeginsWithScheme(s[v..w], "bearer") && !BeginsWithScheme(s[v..w], "basic")
    ensures CoversAll(merged, v, w)
  {
    AssignmentIsSecret(SecretNames(), s, sep, i, j, v, w);
    QuotedIsSecret(s, v, w);
    AssignedIsCovered(s, merged, sep, Range(v, w));
  }

  lemma QuotedIsSecret(s: seq<byte>, v: nat, w: nat)
    requires 0 < v <= w <= |s| && IsQuote(s[v - 1])
    requires !IsSchemeWord(s[v..w]) && !BeginsWithScheme(s[v..w], "bearer") && !BeginsWithScheme(s[v..w], "basic")
    ensures AuthorizationSecret(s, Range(v, w)) == Range(v, w)
  {
  }

  /** The credential behind a scheme word is hidden: behind the value when that is the word, inside it when quoted with it. */
  lemma AuthorizationHidesTheCredential(
    s: seq<byte>, merged: seq<Range>, sep: nat, i: nat, j: nat, v: nat, w: nat, from: nat, c: nat, d: nat)
    requires ValidUtf8(s) && SecretsOf(s, merged)
    requires KeyStands(s, sep, i, j) && IsSeparator(s[sep]) && ValueStands(s, sep + 1, v, w)
    requires IsSecretName(s, i, j) && IsAuthorizationKey(NormalizeKey(s[i..j]))
    requires || (IsSchemeWord(s[v..w]) && from == w)
             || (BeginsWithScheme(s[v..w], "bearer") && from == v + 6)
             || (BeginsWithScheme(s[v..w], "basic") && from == v + 5)
    requires ValueStands(s, from, c, d) && s[c..d] != REDACTED
    ensures CoversAll(merged, c, d)
  {
    AssignmentIsSecret(SecretNames(), s, sep, i, j, v, w);
    ValueIsFound(s, from, c, d);
    SchemeIsRead(s, v, w, from);
    AssignedIsCovered(s, merged, sep, Range(c, d));
  }

  lemma SchemeIsRead(s: seq<byte>, v: nat, w: nat, from: nat)
    requires v <= w <= |s|
    requires || (IsSchemeWord(s[v..w]) && from == w)
             || (BeginsWithScheme(s[v..w], "bearer") && from == v + 6)
             || (BeginsWithScheme(s[v..w], "basic") && from == v + 5)
    ensures var bearer, basic := AfterScheme(s, Range(v, w), "bearer"), AfterScheme(s, Range(v, w), "basic");
      bearer == Some(from) || (bearer.None? && basic == Some(from))
  {
    var text := s[v..w];
    assert "bearer"[1] != "basic"[1];
    assert EqualsIgnoreCase(text, "basic") ==> !EqualsIgnoreCase(text, "bearer");
    assert BeginsWithScheme(text, "basic") ==> text[..5][1] == text[1];
    assert BeginsWithScheme(text, "bearer") ==> text[..6][1] == text[1];
  }

  // ----- a field of a JSON object, written out

  lemma NotEscapedBehindPlain(s: seq<byte>, i: nat)
    requires i <= |s| && (i > 0 ==> !IsBackslash(s[i - 1]))
    ensures !Escaped(s, i)
  {
    EscapedMeans(s, i, 0);
  }

  /** Between `i` and `j` stands no quote and no backslash. */
  predicate AllPlain(s: seq<byte>, i: nat, j: nat) {
    i <= j <= |s| && forall k :: i <= k < j ==> !IsQuote(s[k]) && !IsBackslash(s[k])
  }

  /**
   A field as it stands in a text: the key `[i..j]` and the value `[v..w]`, each between quotes, with
   white space around the separator.
   */
  predicate FieldAt(s: seq<byte>, sep: nat, i: nat, j: nat, v: nat, w: nat) {
    && 0 < i < j < sep < v - 1 && v < w < |s|
    && IsQuote(s[i - 1]) && s[j] == s[i - 1] && IsSeparator(s[sep]) && IsQuote(s[v - 1]) && s[w] == s[v - 1]
    && AllPlain(s, i, j) && AllSpace(s, j + 1, sep) && AllSpace(s, sep + 1, v - 1) && AllPlain(s, v, w)
    && (i > 1 ==> !IsBackslash(s[i - 2]))
  }

  lemma FieldKeyIsQuoted(s: seq<byte>, sep: nat, i: nat, j: nat, v: nat, w: nat)
    requires FieldAt(s, sep, i, j, v, w)
    ensures QuotedKey(s, sep, i, j)
  {
    NotEscapedBehindPlain(s, i - 1);
  }

  lemma FieldValueIsQuoted(s: seq<byte>, sep: nat, i: nat, j: nat, v: nat, w: nat)
    requires FieldAt(s, sep, i, j, v, w)
    ensures QuotedValue(s, sep + 1, v, w)
  {
    NotEscapedBehindPlain(s, w);
  }

  lemma FieldStands(s: seq<byte>, sep: nat, i: nat, j: nat, v: nat, w: nat)
    requires FieldAt(s, sep, i, j, v, w)
    ensures KeyStands(s, sep, i, j) && IsSeparator(s[sep]) && ValueStands(s, sep + 1, v, w)
  {
    FieldKeyIsQuoted(s, sep, i, j, v, w);
    FieldValueIsQuoted(s, sep, i, j, v, w);
  }

  /**
   A quoted field with a sensitive name, anywhere in a text, has its value hidden: whatever stands
   before and behind it, and whatever white space stands around the separator.
   */
  lemma FieldIsHidden(s: seq<byte>, merged: seq<Range>, sep: nat, i: nat, j: nat, v: nat, w: nat)
    requires ValidUtf8(s) && SecretsOf(s, merged) && FieldAt(s, sep, i, j, v, w)
    requires IsSecretName(s, i, j) && !IsAuthorizationKey(NormalizeKey(s[i..j])) && s[v..w] != REDACTED
    ensures CoversAll(merged, v, w)
  {
    FieldStands(s, sep, i, j, v, w);
    AssignedIsHidden(s, merged, sep, i, j, v, w);
  }

  // ----- the same field, put together

  /** Nonempty text that holds no quote and no backslash. */
  predicate Plain(text: seq<byte>) {
    text != [] && forall k :: 0 <= k < |text| ==> !IsQuote(text[k]) && !IsBackslash(text[k])
  }

  predicate Spaces(text: seq<byte>) {
    forall k :: 0 <= k < |text| ==> IsHorizontalSpace(text[k])
  }

  function Field(key: seq<byte>, q: byte, before: seq<byte>, sep: byte, behind: seq<byte>, value: seq<byte>, r: byte)
    : seq<byte>
  {
    [q] + key + [q] + before + [sep] + behind + [r] + value + [r]
  }

  lemma PlainWithin(s: seq<byte>, i: nat, j: nat)
    requires i <= j <= |s| && Plain(s[i..j])
    ensures AllPlain(s, i, j)
  {
    forall k | i <= k < j ensures !IsQuote(s[k]) && !IsBackslash(s[k]) {
      assert s[i..j][k - i] == s[k];
    }
  }

  lemma SpacesWithin(s: seq<byte>, i: nat, j: nat)
    requires i <= j <= |s| && Spaces(s[i..j])
    ensures AllSpace(s, i, j)
  {
    forall k | i <= k < j ensures IsHorizontalSpace(s[k]) {
      assert s[i..j][k - i] == s[k];
    }
  }

  /** A slice of a middle part is a slice of the whole, further along. */
  lemma {:induction false} SliceWithin(a: seq<byte>, f: seq<byte>, b: seq<byte>, i: nat, j: nat)
    requires i <= j <= |f|
    ensures (a + f + b)[|a| + i..|a| + j] == f[i..j]
  {
  }

  lemma {:induction false} ByteWithin(a: seq<byte>, f: seq<byte>, b: seq<byte>, i: nat)
    requires i < |f|
    ensures (a + f + b)[|a| + i] == f[i]
  {
  }

  /** Where the parts of a field stand in the field alone. */
  lemma {:induction false} FieldBytes(
    key: seq<byte>, q: byte, before: seq<byte>, sep: byte, behind: seq<byte>, value: seq<byte>, r: byte)
    ensures var f := Field(key, q, before, sep, behind, value, r);
      var n, m, o := |key|, |key| + |before|, |key| + |before| + |behind|;
      && |f| == o + |value| + 5 && f[0] == q && f[n + 1] == q && f[m + 2] == sep && f[o + 3] == r && f[o + |value| + 4] == r
      && f[1..n + 1] == key && f[n + 2..m + 2] == before && f[m + 3..o + 3] == behind && f[o + 4..o + |value| + 4] == value
  {
  }

  /** The text holds these parts between these positions. */
  ghost predicate Holds(
    s: seq<byte>, sep: nat, i: nat, j: nat, v: nat, w: nat,
    key: seq<byte>, before: seq<byte>, behind: seq<byte>, value: seq<byte>)
  {
    && 0 < i <= j < sep < v - 1 && v <= w < |s|
    && s[i..j] == key && s[j + 1..sep] == before && s[sep + 1..v - 1] == behind && s[v..w] == value
    && IsQuote(s[i - 1]) && s[j] == s[i - 1] && IsSeparator(s[sep]) && IsQuote(s[v - 1]) && s[w] == s[v - 1]
  }

  lemma {:induction false} FieldIsHeld(
    a: seq<byte>, key: seq<byte>, q: byte, before: seq<byte>, sep: byte, behind: seq<byte>, value: seq<byte>, r: byte,
    b: seq<byte>)
    requires IsQuote(q) && IsSeparator(sep) && IsQuote(r)
    ensures var i, at, v := |a| + 1, |a| + |key| + |before| + 2, |a| + |key| + |before| + |behind| + 4;
      Holds(a + Field(key, q, before, sep, behind, value, r) + b, at, i, i + |key|, v, v + |value|,
        key, before, behind, value)
  {
    var f := Field(key, q, before, sep, behind, value, r);
    var n, m, o := |key|, |key| + |before|, |key| + |before| + |behind|;
    FieldBytes(key, q, before, sep, behind, value, r);
    SliceWithin(a, f, b, 1, n + 1);
    SliceWithin(a, f, b, n + 2, m + 2);
    SliceWithin(a, f, b, m + 3, o + 3);
    SliceWithin(a, f, b, o + 4, o + |value| + 4);
    ByteWithin(a, f, b, 0);
    ByteWithin(a, f, b, n + 1);
    ByteWithin(a, f, b, m + 2);
    ByteWithin(a, f, b, o + 3);
    ByteWithin(a, f, b, o + |value| + 4);
  }

  lemma HeldStands(
    s: seq<byte>, sep: nat, i: nat, j: nat, v: nat, w: nat,
    key: seq<byte>, before: seq<byte>, behind: seq<byte>, value: seq<byte>)
    requires Holds(s, sep, i, j, v, w, key, before, behind, value) && (i > 1 ==> !IsBackslash(s[i - 2]))
    requires Plain(key) && Spaces(before) && Spaces(behind) && Plain(value)
    ensures FieldAt(s, sep, i, j, v, w)
  {
    PlainWithin(s, i, j);
    SpacesWithin(s, j + 1, sep);
    SpacesWithin(s, sep + 1, v - 1);
    PlainWithin(s, v, w);
  }

  /** Whatever stands before and behind a field that is put together from plain parts, it stands in the whole. */
  lemma {:induction false} FieldIsAt(
    a: seq<byte>, key: seq<byte>, q: byte, before: seq<byte>, sep: byte, behind: seq<byte>, value: seq<byte>, r: byte,
    b: seq<byte>)
    requires IsQuote(q) && Plain(key) && Spaces(before) && IsSeparator(sep) && Spaces(behind) && IsQuote(r) && Plain(value)
    requires a != [] ==> !IsBackslash(a[|a| - 1])
    ensures var s := a + Field(key, q, before, sep, behind, value, r) + b;
      var i, at, v := |a| + 1, |a| + |key| + |before| + 2, |a| + |key| + |before| + |behind| + 4;
      FieldAt(s, at, i, i + |key|, v, v + |value|) && s[i..i + |key|] == key && s[v..v + |value|] == value
  {
    var s := a + Field(key, q, before, sep, behind, value, r) + b;
    var i, at, v := |a| + 1, |a| + |key| + |before| + 2, |a| + |key| + |before| + |behind| + 4;
    FieldIsHeld(a, key, q, before, sep, behind, value, r, b);
    assert a != [] ==> s[|a| - 1] == a[|a| - 1];
    HeldStands(s, at, i, i + |key|, v, v + |value|, key, before, behind, value);
  }

  lemma KeyIsSecretName(s: seq<byte>, i: nat, j: nat, key: seq<byte>)
    requires i <= j <= |s| && s[i..j] == key
    ensures IsSensitiveKey(NormalizeKey(key)) ==> IsSecretName(s, i, j)
  {
  }

  lemma HeldIsHidden(s: seq<byte>, merged: seq<Range>, sep: nat, i: nat, j: nat, v: nat, w: nat, key: seq<byte>, value: seq<byte>)
    requires ValidUtf8(s) && SecretsOf(s, merged) && FieldAt(s, sep, i, j, v, w)
    requires s[i..j] == key && s[v..w] == value && value != REDACTED
    requires IsSensitiveKey(NormalizeKey(key)) && !IsAuthorizationKey(NormalizeKey(key))
    ensures CoversAll(merged, v, w)
  {
    KeyIsSecretName(s, i, j, key);
    FieldIsHidden(s, merged, sep, i, j, v, w);
  }

  /** A text in which a field with these parts stands between `a` and `b`: the value is `[v..w]`. */
  ghost predicate Written(
    s: seq<byte>, a: seq<byte>, key: seq<byte>, q: byte, before: seq<byte>, sep: byte, behind: seq<byte>, value: seq<byte>,
    r: byte, b: seq<byte>, v: nat, w: nat)
  {
    && IsQuote(q) && Plain(key) && Spaces(before) && IsSeparator(sep) && Spaces(behind) && IsQuote(r) && Plain(value)
    && (a != [] ==> !IsBackslash(a[|a| - 1]))
    && s == a + Field(key, q, before, sep, behind, value, r) + b
    && v == |a| + |key| + |before| + |behind| + 4 && w == v + |value|
  }

  /** A field stands at `[v..w]`, with this key and this value. */
  ghost predicate FieldEnds(s: seq<byte>, v: nat, w: nat, key: seq<byte>, value: seq<byte>) {
    exists sep, i, j :: FieldWith(s, sep, i, j, v, w, key, value)
  }

  predicate FieldWith(s: seq<byte>, sep: nat, i: nat, j: nat, v: nat, w: nat, key: seq<byte>, value: seq<byte>) {
    FieldAt(s, sep, i, j, v, w) && s[i..j] == key && s[v..w] == value
  }

  lemma {:induction false} WrittenEnds(
    s: seq<byte>, a: seq<byte>, key: seq<byte>, q: byte, before: seq<byte>, sep: byte, behind: seq<byte>, value: seq<byte>,
    r: byte, b: seq<byte>, v: nat, w: nat)
    ensures Written(s, a, key, q, before, sep, behind, value, r, b, v, w) ==> FieldEnds(s, v, w, key, value)
  {
    if Written(s, a, key, q, before, sep, behind, value, r, b, v, w) {
      FieldIsAt(a, key, q, before, sep, behind, value, r, b);
      assert FieldWith(s, |a| + |key| + |before| + 2, |a| + 1, |a| + 1 + |key|, v, w, key, value);
    }
  }

  lemma EndsIsHidden(s: seq<byte>, merged: seq<Range>, v: nat, w: nat, key: seq<byte>, value: seq<byte>)
    requires ValidUtf8(s) && SecretsOf(s, merged) && FieldEnds(s, v, w, key, value)
    requires IsSensitiveKey(NormalizeKey(key)) && !IsAuthorizationKey(NormalizeKey(key)) && value != REDACTED
    ensures CoversAll(merged, v, w)
  {
    var sep: nat, i: nat, j: nat :| FieldWith(s, sep, i, j, v, w, key, value);
    HeldIsHidden(s, merged, sep, i, j, v, w, key, value);
  }

  /** The same law for a field put together from its parts, with any text before and behind it. */
  lemma WrittenFieldIsHidden(
    s: seq<byte>, a: seq<byte>, key: seq<byte>, q: byte, before: seq<byte>, sep: byte, behind: seq<byte>, value: seq<byte>,
    r: byte, b: seq<byte>, v: nat, w: nat, merged: seq<Range>)
    requires Written(s, a, key, q, before, sep, behind, value, r, b, v, w) && ValidUtf8(s) && SecretsOf(s, merged)
    requires IsSensitiveKey(NormalizeKey(key)) && !IsAuthorizationKey(NormalizeKey(key)) && value != REDACTED
    ensures CoversAll(merged, v, w)
  {
    WrittenEnds(s, a, key, q, before, sep, behind, value, r, b, v, w);
    EndsIsHidden(s, merged, v, w, key, value);
  }

  // ----- credentials behind a scheme word

  /** The ranges cover what this collector finds. */
  ghost predicate CoversFound(s: seq<byte>, merged: seq<Range>, find: nat -> Option<Range>) {
    forall r, p :: Found(find, |s|, r) && Kept(s, r) && Inside(r, p) ==> Covers(merged, p)
  }

  lemma CollectorsAreCovered(s: seq<byte>, merged: seq<Range>)
    requires SecretsOf(s, merged)
    ensures CoversFound(s, merged, Credentials(s, BearerScheme())) && CoversFound(s, merged, Credentials(s, BasicScheme()))
    ensures CoversFound(s, merged, Tokens(JwtTokens(), s)) && CoversFound(s, merged, Tokens(PrefixedTokens(), s))
  {
  }

  lemma FoundIsCovered(s: seq<byte>, merged: seq<Range>, find: nat -> Option<Range>, i: nat, r: Range)
    requires CoversFound(s, merged, find) && i < |s| && find(i) == Some(r) && Kept(s, r)
    ensures CoversAll(merged, r.start, r.end)
  {
    assert Found(find, |s|, r);
    forall p | r.start <= p < r.end ensures Covers(merged, p) {
      assert Inside(r, p);
    }
  }

  /** At `k` stands the scheme word as a word, white space, and the value `[c..d]`. */
  predicate SchemeStands(s: seq<byte>, word: string, k: nat, c: nat, d: nat) {
    && SchemeAt(s, word, k) && (k == 0 || !IsTokenByte(s[k - 1]))
    && k + |word| < |s| && IsHorizontalSpace(s[k + |word|]) && ValueStands(s, k + |word|, c, d)
  }

  lemma CandidateIsTheValue(s: seq<byte>, word: string, k: nat)
    requires SchemeAt(s, word, k) && WordBoundary(s, k) && k + |word| < |s| && IsHorizontalSpace(s[k + |word|])
    ensures Candidate(s, word, k) == ValueAt(s, SkipSpace(s, k + |word|))
  {
  }

  lemma SchemeValueIsFound(s: seq<byte>, word: string, k: nat, c: nat, d: nat)
    requires SchemeStands(s, word, k, c, d)
    ensures Candidate(s, word, k) == Some(Range(c, d))
  {
    CandidateIsTheValue(s, word, k);
    ValueIsFound(s, k + |word|, c, d);
  }

  /** Every occurrence of the scheme word before `k` is behind it with its value. */
  predicate FirstOrApart(s: seq<byte>, word: string, k: nat) {
    forall j :: 0 <= j < k && SchemeAt(s, word, j) ==> SpanEnd(s, word, j) <= k
  }

  lemma CredentialIsFound(s: seq<byte>, scheme: Scheme, k: nat, c: nat, d: nat)
    requires SchemeStands(s, scheme.word, k, c, d) && FirstOrApart(s, scheme.word, k) && c <= d <= |s|
    requires scheme.looks(s[c..d])
    ensures Credentials(s, scheme)(k) == Some(Range(c, d))
  {
    SchemeValueIsFound(s, scheme.word, k, c, d);
    UnspannedCounts(s, scheme.word, k);
  }

  lemma CredentialIsHiddenBy(s: seq<byte>, merged: seq<Range>, scheme: Scheme, k: nat, c: nat, d: nat)
    requires Sliceable(s) && CoversFound(s, merged, Credentials(s, scheme))
    requires SchemeStands(s, scheme.word, k, c, d) && FirstOrApart(s, scheme.word, k) && c <= d <= |s|
    requires scheme.looks(s[c..d]) && s[c..d] != REDACTED
    ensures CoversAll(merged, c, d)
  {
    CredentialIsFound(s, scheme, k, c, d);
    SchemeValueIsFound(s, scheme.word, k, c, d);
    CandidateFits(s, scheme.word, k);
    FoundIsCovered(s, merged, Credentials(s, scheme), k, Range(c, d));
  }

  /** What stands behind `bearer` or `basic` and looks like its credential is hidden, with no key in sight. */
  lemma CredentialIsHidden(s: seq<byte>, merged: seq<Range>, scheme: Scheme, k: nat, c: nat, d: nat)
    requires ValidUtf8(s) && SecretsOf(s, merged) && (scheme == BearerScheme() || scheme == BasicScheme())
    requires SchemeStands(s, scheme.word, k, c, d) && FirstOrApart(s, scheme.word, k) && c <= d <= |s|
    requires scheme.looks(s[c..d]) && s[c..d] != REDACTED
    ensures CoversAll(merged, c, d)
  {
    ValidIsSliceable(s);
    CollectorsAreCovered(s, merged);
    CredentialIsHiddenBy(s, merged, scheme, k, c, d);
  }

  /** A scheme word inside a longer word, without white space behind it or before a value of another shape, hides nothing. */
  lemma OtherwiseIsLeft(s: seq<byte>, scheme: Scheme, k: nat)
    requires SchemeAt(s, scheme.word, k)
    requires var after := k + |scheme.word|;
      || (k > 0 && IsTokenByte(s[k - 1]))
      || after == |s| || !IsHorizontalSpace(s[after])
      || exists c: nat, d: nat :: SchemeStands(s, scheme.word, k, c, d) && c <= d <= |s| && !scheme.looks(s[c..d])
    ensures Credentials(s, scheme)(k).None?
  {
    if c: nat, d: nat :| SchemeStands(s, scheme.word, k, c, d) && c <= d <= |s| && !scheme.looks(s[c..d]) {
      SchemeValueIsFound(s, scheme.word, k, c, d);
    }
  }

  // ----- tokens

  /** A whole run of token bytes: nothing of its kind stands before or behind it. */
  predicate RunStands(s: seq<byte>, part: byte -> bool, i: nat, e: nat) {
    && i < e <= |s| && (forall k :: i <= k < e ==> part(s[k]))
    && (i > 0 ==> !part(s[i - 1])) && (e < |s| ==> !part(s[e]))
  }

  lemma PrefixOfRun(s: seq<byte>, i: nat, e: nat, prefix: string)
    requires i <= e <= |s| && HasPrefix(s[i..e], prefix)
    ensures HasPrefix(s[i..], prefix)
  {
    assert forall k :: 0 <= k < |prefix| ==> s[i..][k] == s[i..e][k];
  }

  lemma TokenIsHiddenBy(s: seq<byte>, merged: seq<Range>, kind: TokenKind, i: nat, e: nat)
    requires Sliceable(s) && AsciiKind(kind) && CoversFound(s, merged, Tokens(kind, s))
    requires RunStands(s, kind.part, i, e) && HasPrefix(s[i..e], kind.prefix) && kind.looks(s[i..e])
    requires !kind.part(REDACTED[0])
    ensures CoversAll(merged, i, e)
  {
    PrefixOfRun(s, i, e, kind.prefix);
    assert RunEnd(s, i, kind.part) == e;
    TokenFits(kind, s, i);
    assert s[i..e][0] == s[i];
    FoundIsCovered(s, merged, Tokens(kind, s), i, Range(i, e));
  }

  /** A run that looks like no token is left as a whole: nothing is found at its start or inside it. */
  lemma OtherRunIsLeft(s: seq<byte>, kind: TokenKind, i: nat, e: nat, k: nat)
    requires RunStands(s, kind.part, i, e) && !kind.looks(s[i..e]) && i <= k < e
    ensures TokenAt(kind, s, k).None?
  {
    if k == i {
      assert RunEnd(s, i, kind.part) == e;
    } else {
      assert kind.part(s[k - 1]);
    }
  }

  /** A whole run of token bytes with a vendor's prefix and length is hidden. */
  lemma PrefixedIsHidden(s: seq<byte>, merged: seq<Range>, i: nat, e: nat)
    requires ValidUtf8(s) && SecretsOf(s, merged) && RunStands(s, IsTokenByte, i, e) && LooksLikePrefixed(s[i..e])
    ensures CoversAll(merged, i, e)
  {
    ValidIsSliceable(s);
    CollectorsAreCovered(s, merged);
    TokenKindsAreAscii();
    TokenIsHiddenBy(s, merged, PrefixedTokens(), i, e);
  }

  predicate IsSegment(text: seq<byte>) {
    |text| >= 8 && All(text, IsTokenByte)
  }

  lemma {:induction false} SplitsAtDot(a: seq<byte>, rest: seq<byte>)
    requires All(a, IsTokenByte)
    ensures SplitDots(a + [46] + rest) == [a] + SplitDots(rest)
  {
    var whole := a + [46] + rest;
    if a == [] {
      assert whole[1..] == rest;
    } else {
      SplitsAtDot(a[1..], rest);
      assert whole[1..] == a[1..] + [46] + rest;
      assert [a[0]] + a[1..] == a && IsTokenByte(a[0]);
    }
  }

  lemma {:induction false} SplitsNowhere(a: seq<byte>)
    requires All(a, IsTokenByte)
    ensures SplitDots(a) == [a]
  {
    if a != [] {
      SplitsNowhere(a[1..]);
      assert [a[0]] + a[1..] == a && IsTokenByte(a[0]);
    }
  }

  /** Three segments joined by dots, of which the first begins `eyJ`, are a web token. */
  lemma {:induction false} SegmentsMakeJwt(a: seq<byte>, b: seq<byte>, c: seq<byte>)
    requires IsSegment(a) && IsSegment(b) && IsSegment(c) && HasPrefix(a, "eyJ")
    ensures IsJwtLike(a + [46] + b + [46] + c)
  {
    var whole, rest := a + [46] + b + [46] + c, b + [46] + c;
    assert whole == a + [46] + rest;
    SplitsAtDot(a, rest);
    SplitsAtDot(b, c);
    SplitsNowhere(c);
    assert SplitDots(whole) == [a, b, c];
  }

  /** A web token that stands alone is hidden as a whole. */
  lemma JwtIsHidden(s: seq<byte>, merged: seq<Range>, i: nat, e: nat, a: seq<byte>, b: seq<byte>, c: seq<byte>)
    requires ValidUtf8(s) && SecretsOf(s, merged) && RunStands(s, IsJwtByte, i, e)
    requires IsSegment(a) && IsSegment(b) && IsSegment(c) && HasPrefix(a, "eyJ") && s[i..e] == a + [46] + b + [46] + c
    ensures CoversAll(merged, i, e)
  {
    SegmentsMakeJwt(a, b, c);
    assert HasPrefix(s[i..e], "eyJ") by {
      assert forall k :: 0 <= k < 3 ==> s[i..e][k] == a[k];
    }
    ValidIsSliceable(s);
    CollectorsAreCovered(s, merged);
    TokenKindsAreAscii();
    TokenIsHiddenBy(s, merged, JwtTokens(), i, e);
  }

  // ----- key names

  /** What one byte of a key adds to its name. */
  function NameOf(b: byte): string {
    if IsAlphanumeric(b) then [ToLower(b) as char] else ""
  }

  lemma NormalizeKeyStep(key: seq<byte>)
    requires key != []
    ensures NormalizeKey(key) == NameOf(key[0]) + NormalizeKey(key[1..])
  {
  }

  lemma {:induction false} NormalizeKeyConcat(a: seq<byte>, b: seq<byte>)
    ensures NormalizeKey(a + b) == NormalizeKey(a) + NormalizeKey(b)
  {
    if a == [] {
      assert a + b == b;
    } else {
      NormalizeKeyConcat(a[1..], b);
      assert (a + b)[1..] == a[1..] + b && (a + b)[0] == a[0];
      Associate(NameOf(a[0]), NormalizeKey(a[1..]), NormalizeKey(b));
      NormalizeKeyStep(a);
      NormalizeKeyStep(a + b);
    }
  }

  /** Punctuation in a key does not matter, wherever it stands. */
  lemma {:induction false} PunctuationIsIgnored(a: seq<byte>, x: byte, b: seq<byte>)
    requires !IsAlphanumeric(x)
    ensures NormalizeKey(a + [x] + b) == NormalizeKey(a + b)
  {
    NormalizeKeyConcat(a + [x], b);
    NormalizeKeyConcat(a, [x]);
    NormalizeKeyConcat(a, b);
    assert NormalizeKey([x]) == "";
  }

  /** Nor does case. */
  lemma {:induction false} CaseIsIgnored(a: seq<byte>, x: byte, b: seq<byte>)
    ensures NormalizeKey(a + [x] + b) == NormalizeKey(a + [ToLower(x)] + b)
  {
    NormalizeKeyConcat(a + [x], b);
    NormalizeKeyConcat(a, [x]);
    NormalizeKeyConcat(a + [ToLower(x)], b);
    NormalizeKeyConcat(a, [ToLower(x)]);
    assert NormalizeKey([x]) == NormalizeKey([ToLower(x)]);
  }

  /** A key of lower-case letters and digits is its own name. */
  lemma {:induction false} PlainKeyIsItsName(key: seq<byte>)
    requires forall k :: 0 <= k < |key| ==> IsLower(key[k]) || IsDigit(key[k])
    ensures |NormalizeKey(key)| == |key| && forall k :: 0 <= k < |key| ==> IsByte(key[k], NormalizeKey(key)[k])
  {
    if key != [] {
      PlainKeyIsItsName(key[1..]);
    }
  }
}
