/**
 The secret scanner: four collectors of byte ranges, the merge of their ranges, and the
 rendering of the redacted text. Every `&input[a..b]` of the source is a `Slice` here, so
 that each one is shown to fall on character boundaries.
 */
module Redaction {
  import opened Prelude
  import opened Ordering
  import opened Utf8
  import opened SecretShapes

  datatype Range = Range(start: nat, end: nat)

  predicate Fits(s: seq<byte>, r: Range) {
    r.start <= r.end <= |s| && IsBoundary(s, r.start) && IsBoundary(s, r.end)
  }

  predicate Nonempty(s: seq<byte>, r: Range) {
    Fits(s, r) && r.start < r.end
  }

  // ----- runs of bytes

  /** End of the run of bytes satisfying `p` that starts at `i`. */
  function RunEnd(s: seq<byte>, i: nat, p: byte -> bool): (e: nat)
    requires i <= |s|
    ensures i <= e <= |s|
    ensures forall k :: i <= k < e ==> p(s[k])
    ensures e < |s| ==> !p(s[e])
    decreases |s| - i
  {
    if i < |s| && p(s[i]) then RunEnd(s, i + 1, p) else i
  }

  /** Start of the run of bytes satisfying `p` that ends before `e`. */
  function RunStart(s: seq<byte>, e: nat, p: byte -> bool): (i: nat)
    requires e <= |s|
    ensures i <= e
    ensures forall k :: i <= k < e ==> p(s[k])
    ensures i > 0 ==> !p(s[i - 1])
  {
    if e > 0 && p(s[e - 1]) then RunStart(s, e - 1, p) else e
  }

  method ScanForward(s: seq<byte>, i: nat, p: byte -> bool) returns (e: nat)
    requires i <= |s|
    ensures e == RunEnd(s, i, p)
  {
    e := i;
    while e < |s| && p(s[e])
      invariant e <= |s| && RunEnd(s, e, p) == RunEnd(s, i, p)
    {
      e := e + 1;
    }
  }

  method ScanBackward(s: seq<byte>, e: nat, p: byte -> bool) returns (i: nat)
    requires e <= |s|
    ensures i == RunStart(s, e, p)
  {
    i := e;
    while i > 0 && p(s[i - 1])
      invariant i <= e && RunStart(s, i, p) == RunStart(s, e, p)
    {
      i := i - 1;
    }
  }

  predicate NotDelimiter(b: byte) {
    !IsValueDelimiter(b)
  }

  predicate NotLineBreak(b: byte) {
    !IsLineBreak(b)
  }

  /** The number of backslashes directly before `i` is odd. */
  predicate Escaped(s: seq<byte>, i: nat)
    requires i <= |s|
  {
    (i - RunStart(s, i, b => IsByte(b, '\\'))) % 2 == 1
  }

  method IsEscaped(s: seq<byte>, position: nat) returns (escaped: bool)
    requires position <= |s|
    ensures escaped == Escaped(s, position)
  {
    var slashes, cursor := 0, position;
    while cursor > 0 && IsByte(s[cursor - 1], '\\')
      invariant cursor + slashes == position
      invariant RunStart(s, cursor, b => IsByte(b, '\\')) == RunStart(s, position, b => IsByte(b, '\\'))
    {
      slashes := slashes + 1;
      cursor := cursor - 1;
    }
    return slashes % 2 == 1;
  }

  predicate Closes(s: seq<byte>, i: nat, quote: byte)
    requires i < |s|
  {
    s[i] == quote && !Escaped(s, i)
  }

  /** First unescaped `quote` at or after `i`, or the end of the text. */
  function ClosingQuote(s: seq<byte>, i: nat, quote: byte): (e: nat)
    requires i <= |s|
    ensures i <= e <= |s|
    ensures forall k :: i <= k < e ==> !Closes(s, k, quote)
    ensures e < |s| ==> Closes(s, e, quote)
    decreases |s| - i
  {
    if i < |s| && !Closes(s, i, quote) then ClosingQuote(s, i + 1, quote) else i
  }

  method FindClosing(s: seq<byte>, i: nat, quote: byte) returns (e: nat)
    requires i <= |s|
    ensures e == ClosingQuote(s, i, quote)
  {
    e := i;
    while e < |s|
      invariant e <= |s| && ClosingQuote(s, e, quote) == ClosingQuote(s, i, quote)
    {
      var escaped := IsEscaped(s, e);
      if s[e] == quote && !escaped {
        return;
      }
      e := e + 1;
    }
  }

  /** Last unescaped `quote` before `before`. */
  function OpeningQuote(s: seq<byte>, before: nat, quote: byte): (r: Option<nat>)
    requires before <= |s|
    ensures r.Some? ==> r.value < before && Closes(s, r.value, quote)
    ensures forall k :: 0 <= k < before && (r.Some? ==> r.value < k) ==> !Closes(s, k, quote)
  {
    if before == 0 then None
    else if Closes(s, before - 1, quote) then Some(before - 1)
    else OpeningQuote(s, before - 1, quote)
  }

  method PreviousUnescapedQuote(s: seq<byte>, before: nat, quote: byte) returns (r: Option<nat>)
    requires before <= |s|
    ensures r == OpeningQuote(s, before, quote)
  {
    var cursor := before;
    while cursor > 0
      invariant 0 <= cursor <= before && OpeningQuote(s, cursor, quote) == OpeningQuote(s, before, quote)
    {
      cursor := cursor - 1;
      var escaped := IsEscaped(s, cursor);
      if s[cursor] == quote && !escaped {
        return Some(cursor);
      }
    }
    return None;
  }

  // ----- keys and values around a separator

  function KeyBefore(s: seq<byte>, separator: nat): (r: Option<Range>)
    requires separator <= |s|
    ensures r.Some? ==> r.value.start < r.value.end <= separator
  {
    var end := RunStart(s, separator, IsHorizontalSpace);
    if end == 0 then None
    else if IsQuote(s[end - 1]) then
      var opening := OpeningQuote(s, end - 1, s[end - 1]);
      if opening.Some? && opening.value + 1 < end - 1 then Some(Range(opening.value + 1, end - 1)) else None
    else
      var start := RunStart(s, end, IsKeyByte);
      if start < end then Some(Range(start, end)) else None
  }

  /** A range whose ends each touch an ASCII byte, or the end of the text, lies on boundaries. */
  lemma TouchesAscii(s: seq<byte>, r: Range)
    requires Sliceable(s) && r.start < r.end <= |s|
    requires IsAscii(s[r.start]) || (r.start > 0 && IsAscii(s[r.start - 1]))
    requires r.end == |s| || IsAscii(s[r.end]) || IsAscii(s[r.end - 1])
    ensures Nonempty(s, r)
  {
    if IsAscii(s[r.start]) { AfterAscii(s, r.start); } else { AfterAscii(s, r.start - 1); }
    if r.end < |s| {
      if IsAscii(s[r.end]) { AfterAscii(s, r.end); } else { AfterAscii(s, r.end - 1); }
    }
  }

  lemma KeyBeforeAscii(s: seq<byte>, separator: nat)
    requires separator <= |s| && KeyBefore(s, separator).Some?
    ensures var key := KeyBefore(s, separator).value;
      && key.start < key.end <= separator
      && (IsAscii(s[key.start]) || (key.start > 0 && IsAscii(s[key.start - 1])))
      && (key.end == |s| || IsAscii(s[key.end]) || IsAscii(s[key.end - 1]))
  {
    var end := RunStart(s, separator, IsHorizontalSpace);
    if IsQuote(s[end - 1]) {
      assert Closes(s, KeyBefore(s, separator).value.start - 1, s[end - 1]);
    }
  }

  lemma KeyBeforeFits(s: seq<byte>, separator: nat)
    requires Sliceable(s) && separator <= |s|
    ensures var key := KeyBefore(s, separator);
      key.Some? ==> Nonempty(s, key.value) && key.value.end <= separator
  {
    if KeyBefore(s, separator).Some? {
      KeyBeforeAscii(s, separator);
      TouchesAscii(s, KeyBefore(s, separator).value);
    }
  }

  method KeyBeforeSeparator(s: seq<byte>, separator: nat) returns (key: Option<Range>)
    requires separator <= |s|
    ensures key == KeyBefore(s, separator)
  {
    var end := ScanBackward(s, separator, IsHorizontalSpace);
    if end == 0 {
      return None;
    }
    if IsQuote(s[end - 1]) {
      var opening := PreviousUnescapedQuote(s, end - 1, s[end - 1]);
      if opening.Some? && opening.value + 1 < end - 1 {
        return Some(Range(opening.value + 1, end - 1));
      }
      return None;
    }
    var start := ScanBackward(s, end, IsKeyByte);
    if start < end {
      return Some(Range(start, end));
    }
    return None;
  }

  function ValueAt(s: seq<byte>, start: nat): (r: Option<Range>)
    ensures r.Some? ==> start <= r.value.start < r.value.end <= |s|
  {
    if start >= |s| || REDACTED <= s[start..] then None
    else if IsQuote(s[start]) then
      var end := ClosingQuote(s, start + 1, s[start]);
      if start + 1 < end then Some(Range(start + 1, end)) else None
    else
      var end := RunEnd(s, start, NotDelimiter);
      if start < end then Some(Range(start, end)) else None
  }

  lemma ValueAtFits(s: seq<byte>, start: nat)
    requires Sliceable(s) && start <= |s| && IsBoundary(s, start)
    ensures var value := ValueAt(s, start);
      value.Some? ==> Nonempty(s, value.value) && start <= value.value.start
  {
    var value := ValueAt(s, start);
    if value.Some? {
      if IsQuote(s[start]) {
        AfterAscii(s, start);
      }
      if value.value.end < |s| {
        AfterAscii(s, value.value.end);
      }
    }
  }

  method ValueStartingAt(s: seq<byte>, start: nat) returns (value: Option<Range>)
    requires Sliceable(s) && start <= |s| && IsBoundary(s, start)
    ensures value == ValueAt(s, start)
  {
    if start >= |s| || REDACTED <= Slice(s, start, |s|) {
      return None;
    }
    if IsQuote(s[start]) {
      var end := FindClosing(s, start + 1, s[start]);
      return if start + 1 < end then Some(Range(start + 1, end)) else None;
    }
    var end := ScanForward(s, start, NotDelimiter);
    return if start < end then Some(Range(start, end)) else None;
  }

  function SkipSpace(s: seq<byte>, i: nat): nat
    requires i <= |s|
  {
    RunEnd(s, i, IsHorizontalSpace)
  }

  lemma SkipSpaceFits(s: seq<byte>, i: nat)
    requires Sliceable(s) && i <= |s| && IsBoundary(s, i)
    ensures IsBoundary(s, SkipSpace(s, i))
  {
    var e := SkipSpace(s, i);
    if i < e {
      AfterAscii(s, e - 1);
    }
  }

  predicate IsAuthorizationKey(key: string) {
    key == "authorization" || key == "proxyauthorization"
  }

  /** The offset after an authorization scheme word that `value` consists of or starts with. */
  function AfterScheme(s: seq<byte>, value: Range, scheme: string): Option<nat>
    requires value.start <= value.end <= |s|
  {
    var text := s[value.start..value.end];
    if EqualsIgnoreCase(text, scheme) then Some(value.end)
    else if |text| > |scheme| && EqualsIgnoreCase(text[..|scheme|], scheme) && IsHorizontalSpace(text[|scheme|])
    then Some(value.start + |scheme|)
    else None
  }

  /** The secret part of an authorization value: the credential after a scheme word, or the line's rest. */
  function AuthorizationSecret(s: seq<byte>, value: Range): Range
    requires value.start <= value.end <= |s|
  {
    var bearer, basic := AfterScheme(s, value, "bearer"), AfterScheme(s, value, "basic");
    if bearer.Some? || basic.Some? then
      var after := if bearer.Some? then bearer.value else basic.value;
      var credential := ValueAt(s, SkipSpace(s, after));
      if credential.Some? then credential.value else value
    else if 0 < value.start && IsQuote(s[value.start - 1]) then value
    else Range(value.start, RunEnd(s, value.end, NotLineBreak))
  }

  lemma AfterSchemeFits(s: seq<byte>, value: Range, scheme: string)
    requires Sliceable(s) && Nonempty(s, value)
    ensures var after := AfterScheme(s, value, scheme);
      after.Some? ==> after.value <= |s| && IsBoundary(s, after.value)
  {
    var text := s[value.start..value.end];
    if !EqualsIgnoreCase(text, scheme) && AfterScheme(s, value, scheme).Some? {
      assert s[value.start + |scheme|] == text[|scheme|];
      AfterAscii(s, value.start + |scheme|);
    }
  }

  lemma AuthorizationSecretFits(s: seq<byte>, value: Range)
    requires Sliceable(s) && Nonempty(s, value)
    ensures Nonempty(s, AuthorizationSecret(s, value))
  {
    var bearer, basic := AfterScheme(s, value, "bearer"), AfterScheme(s, value, "basic");
    AfterSchemeFits(s, value, "bearer");
    AfterSchemeFits(s, value, "basic");
    if bearer.Some? || basic.Some? {
      var after := if bearer.Some? then bearer.value else basic.value;
      SkipSpaceFits(s, after);
      ValueAtFits(s, SkipSpace(s, after));
    } else {
      var end := RunEnd(s, value.end, NotLineBreak);
      if end < |s| {
        AfterAscii(s, end);
      }
    }
  }

  method CredentialAfter(s: seq<byte>, value: Range, after: nat) returns (secret: Range)
    requires Sliceable(s) && after <= |s| && IsBoundary(s, after)
    ensures var credential := ValueAt(s, SkipSpace(s, after));
      secret == if credential.Some? then credential.value else value
  {
    SkipSpaceFits(s, after);
    var start := ScanForward(s, after, IsHorizontalSpace);
    var credential := ValueStartingAt(s, start);
    return if credential.Some? then credential.value else value;
  }

  method AuthorizationSecretRange(s: seq<byte>, value: Range) returns (secret: Range)
    requires Sliceable(s) && Nonempty(s, value)
    ensures secret == AuthorizationSecret(s, value)
  {
    for i := 0 to 2
      invariant i >= 1 ==> AfterScheme(s, value, "bearer").None?
      invariant i >= 2 ==> AfterScheme(s, value, "basic").None?
    {
      var scheme := if i == 0 then "bearer" else "basic";
      var after := AfterScheme(s, value, scheme);
      if after.Some? {
        AfterSchemeFits(s, value, scheme);
        secret := CredentialAfter(s, value, after.value);
        return;
      }
    }
    if 0 < value.start && IsQuote(s[value.start - 1]) {
      return value;
    }
    var end := ScanForward(s, value.end, NotLineBreak);
    return Range(value.start, end);
  }

  // ----- what a collector finds

  ghost predicate Found(find: nat -> Option<Range>, n: nat, r: Range) {
    exists i :: 0 <= i < n && find(i) == Some(r)
  }

  /** `ranges` holds exactly what `find` reports at the positions below `n`. */
  ghost predicate Collects(find: nat -> Option<Range>, n: nat, ranges: seq<Range>) {
    forall r :: r in ranges <==> Found(find, n, r)
  }

  lemma CollectsMore(find: nat -> Option<Range>, n: nat, end: nat, ranges: seq<Range>, found: Option<Range>)
    requires Collects(find, n, ranges) && n < end && found == find(n)
    requires forall k :: n < k < end ==> find(k).None?
    ensures Collects(find, end, if found.Some? then ranges + [found.value] else ranges)
  {
    var more := if found.Some? then ranges + [found.value] else ranges;
    forall r ensures r in more <==> Found(find, end, r) {
      if r in more && r !in ranges {
        assert find(n) == Some(r);
      }
    }
  }

  // ----- assignments such as `token = value`

  predicate IsSeparator(b: byte) {
    IsByte(b, '=') || IsByte(b, ':')
  }

  predicate IsQueryMark(b: byte) {
    IsByte(b, '?') || IsByte(b, '&') || IsByte(b, ';')
  }

  /** Which normalized key names mark a secret: anywhere, or only as a query parameter. */
  datatype KeyNames = KeyNames(sensitive: string -> bool, queryOnly: string -> bool)

  predicate NamesSecret(names: KeyNames, s: seq<byte>, key: Range)
    requires key.start <= key.end <= |s|
  {
    var name := NormalizeKey(s[key.start..key.end]);
    || names.sensitive(name)
    || (key.start > 0 && IsQueryMark(s[key.start - 1]) && names.queryOnly(name))
  }

  /** The secret in the value after a separator. */
  function SecretValue(s: seq<byte>, separator: nat, authorization: bool): Option<Range>
    requires separator < |s|
  {
    match ValueAt(s, SkipSpace(s, separator + 1))
    case None => None
    case Some(value) => Some(if authorization then AuthorizationSecret(s, value) else value)
  }

  /** The secret assigned at one separator, if any. */
  function AssignedSecret(names: KeyNames, s: seq<byte>, separator: nat): Option<Range> {
    if !(separator < |s| && IsSeparator(s[separator])) then None
    else match KeyBefore(s, separator)
      case None => None
      case Some(key) =>
        if !NamesSecret(names, s, key) then None
        else SecretValue(s, separator, IsAuthorizationKey(NormalizeKey(s[key.start..key.end])))
  }

  lemma ValueAfterFits(s: seq<byte>, separator: nat)
    requires Sliceable(s) && separator < |s| && IsSeparator(s[separator])
    ensures IsBoundary(s, SkipSpace(s, separator + 1))
    ensures var value := ValueAt(s, SkipSpace(s, separator + 1)); value.Some? ==> Nonempty(s, value.value)
  {
    AfterAscii(s, separator);
    SkipSpaceFits(s, separator + 1);
    ValueAtFits(s, SkipSpace(s, separator + 1));
  }

  lemma AssignedSecretFits(names: KeyNames, s: seq<byte>, separator: nat)
    requires Sliceable(s)
    ensures AssignedSecret(names, s, separator).Some? ==> Nonempty(s, AssignedSecret(names, s, separator).value)
  {
    if AssignedSecret(names, s, separator).Some? {
      ValueAfterFits(s, separator);
      AuthorizationSecretFits(s, ValueAt(s, SkipSpace(s, separator + 1)).value);
    }
  }

  method TakeValue(s: seq<byte>, separator: nat, authorization: bool) returns (secret: Option<Range>)
    requires Sliceable(s) && separator < |s| && IsSeparator(s[separator])
    ensures secret == SecretValue(s, separator, authorization)
  {
    ValueAfterFits(s, separator);
    var start := ScanForward(s, separator + 1, IsHorizontalSpace);
    var value := ValueStartingAt(s, start);
    if value.Some? && authorization {
      var range := AuthorizationSecretRange(s, value.value);
      return Some(range);
    }
    return value;
  }

  method SecretAt(names: KeyNames, s: seq<byte>, separator: nat) returns (secret: Option<Range>)
    requires Sliceable(s) && separator < |s| && IsSeparator(s[separator])
    ensures secret == AssignedSecret(names, s, separator)
  {
    var key := KeyBeforeSeparator(s, separator);
    if key.None? {
      return None;
    }
    KeyBeforeFits(s, separator);
    var name := NormalizeKey(Slice(s, key.value.start, key.value.end));
    if !NamesSecret(names, s, key.value) {
      return None;
    }
    secret := TakeValue(s, separator, IsAuthorizationKey(name));
  }

  function Assignments(names: KeyNames, s: seq<byte>): nat -> Option<Range> {
    (i: nat) => AssignedSecret(names, s, i)
  }

  method CollectAssignments(names: KeyNames, s: seq<byte>) returns (ranges: seq<Range>)
    requires Sliceable(s)
    ensures Collects(Assignments(names, s), |s|, ranges)
  {
    ranges := [];
    for separator := 0 to |s|
      invariant Collects(Assignments(names, s), separator, ranges)
    {
      var secret := None;
      if IsSeparator(s[separator]) {
        secret := SecretAt(names, s, separator);
      }
      CollectsMore(Assignments(names, s), separator, separator + 1, ranges, secret);
      if secret.Some? {
        ranges := ranges + [secret.value];
      }
    }
  }

  // ----- bearer and basic schemes

  /** A scheme word and the shape of its credentials. */
  datatype Scheme = Scheme(word: string, looks: seq<byte> -> bool)

  predicate SchemeAt(s: seq<byte>, word: string, i: nat) {
    i + |word| <= |s| && EqualsIgnoreCase(s[i..i + |word|], word)
  }

  /** First case-insensitive occurrence of the scheme word at or after `i`. */
  function FindScheme(s: seq<byte>, word: string, i: nat): (r: Option<nat>)
    ensures r.Some? ==> i <= r.value && SchemeAt(s, word, r.value)
    decreases |s| - i
  {
    if i + |word| > |s| then None
    else if SchemeAt(s, word, i) then Some(i)
    else FindScheme(s, word, i + 1)
  }

  lemma FindSchemeIsFirst(s: seq<byte>, word: string, i: nat, k: nat)
    requires i <= k && SchemeAt(s, word, k)
    ensures FindScheme(s, word, i).Some? && FindScheme(s, word, i).value <= k
    decreases k - i
  {
    if !SchemeAt(s, word, i) {
      FindSchemeIsFirst(s, word, i + 1, k);
    }
  }

  method FindIgnoringCase(s: seq<byte>, word: string, i: nat) returns (r: Option<nat>)
    ensures r == FindScheme(s, word, i)
  {
    var k := i;
    while k + |word| <= |s|
      invariant i <= k && FindScheme(s, word, k) == FindScheme(s, word, i)
    {
      if SchemeAt(s, word, k) {
        return Some(k);
      }
      k := k + 1;
    }
    return None;
  }

  predicate WordBoundary(s: seq<byte>, i: nat)
    requires i <= |s|
  {
    i == 0 || !IsTokenByte(s[i - 1])
  }

  /** The value that follows a scheme word at `i`, when the word stands alone before white space. */
  function Candidate(s: seq<byte>, word: string, i: nat): (r: Option<Range>)
    requires SchemeAt(s, word, i)
    ensures r.Some? ==> i + |word| <= r.value.start < r.value.end <= |s|
  {
    var after := i + |word|;
    if WordBoundary(s, i) && after < |s| && IsHorizontalSpace(s[after]) then ValueAt(s, SkipSpace(s, after)) else None
  }

  lemma CandidateFits(s: seq<byte>, word: string, i: nat)
    requires Sliceable(s) && SchemeAt(s, word, i)
    requires i + |word| < |s| && IsHorizontalSpace(s[i + |word|])
    ensures IsBoundary(s, SkipSpace(s, i + |word|))
    ensures Candidate(s, word, i).Some? ==> Nonempty(s, Candidate(s, word, i).value)
  {
    AfterAscii(s, i + |word|);
    SkipSpaceFits(s, i + |word|);
    ValueAtFits(s, SkipSpace(s, i + |word|));
  }

  method TakeScheme(s: seq<byte>, word: string, start: nat) returns (candidate: Option<Range>)
    requires Sliceable(s) && SchemeAt(s, word, start)
    ensures candidate == Candidate(s, word, start)
    ensures candidate.Some? ==> Nonempty(s, candidate.value)
  {
    var after := start + |word|;
    if !WordBoundary(s, start) || !(after < |s| && IsHorizontalSpace(s[after])) {
      return None;
    }
    CandidateFits(s, word, start);
    var space := ScanForward(s, after, IsHorizontalSpace);
    candidate := ValueStartingAt(s, space);
  }

  /** Where the text after an occurrence of the word begins: behind its candidate, or behind the word. */
  function SpanEnd(s: seq<byte>, word: string, i: nat): (e: nat)
    requires SchemeAt(s, word, i)
    ensures i + |word| <= e <= |s|
  {
    var candidate := Candidate(s, word, i);
    if candidate.Some? then candidate.value.end else i + |word|
  }

  /** An occurrence of the word that counts: it does not lie in the span of an earlier one that counts. */
  ghost predicate Counts(s: seq<byte>, word: string, k: nat)
    decreases k
  {
    SchemeAt(s, word, k)
    && forall j :: 0 <= j < k ==> (Counts(s, word, j) ==> SpanEnd(s, word, j) <= k)
  }

  /** An occurrence that lies in no earlier occurrence's span counts. */
  lemma UnspannedCounts(s: seq<byte>, word: string, k: nat)
    requires SchemeAt(s, word, k)
    requires forall j :: 0 <= j < k && SchemeAt(s, word, j) ==> SpanEnd(s, word, j) <= k
    ensures Counts(s, word, k)
  {
    forall j | 0 <= j < k && Counts(s, word, j) ensures SpanEnd(s, word, j) <= k {
      assert SchemeAt(s, word, j);
    }
  }

  /** The credential of the occurrence of a scheme word at `k`, if it counts and its candidate looks like one. */
  ghost function Credential(s: seq<byte>, scheme: Scheme, k: nat): Option<Range> {
    if !Counts(s, scheme.word, k) then None
    else
      match Candidate(s, scheme.word, k)
      case None => None
      case Some(value) => if scheme.looks(s[value.start..value.end]) then Some(value) else None
  }

  ghost function Credentials(s: seq<byte>, scheme: Scheme): nat -> Option<Range> {
    (k: nat) => Credential(s, scheme, k)
  }

  /** Before `cursor` everything is collected, and no span that counts reaches beyond it. */
  ghost predicate Cleared(s: seq<byte>, scheme: Scheme, cursor: nat, ranges: seq<Range>) {
    Collects(Credentials(s, scheme), cursor, ranges) && SpansEnd(s, scheme.word, cursor)
  }

  ghost predicate SpansEnd(s: seq<byte>, word: string, cursor: nat) {
    forall j :: 0 <= j < cursor ==> (Counts(s, word, j) ==> SpanEnd(s, word, j) <= cursor)
  }

  /** The first occurrence at or after the cursor counts, and none counts between it and the end of its span. */
  lemma NextCounts(s: seq<byte>, word: string, cursor: nat, i: nat)
    requires SpansEnd(s, word, cursor) && word != [] && FindScheme(s, word, cursor) == Some(i)
    ensures Counts(s, word, i)
    ensures forall k :: cursor <= k < SpanEnd(s, word, i) && k != i ==> !Counts(s, word, k)
    ensures SpansEnd(s, word, SpanEnd(s, word, i))
  {
    forall k | cursor <= k < i ensures !SchemeAt(s, word, k) {
      if SchemeAt(s, word, k) {
        FindSchemeIsFirst(s, word, cursor, k);
      }
    }
  }

  lemma ClearedNext(s: seq<byte>, scheme: Scheme, cursor: nat, ranges: seq<Range>, i: nat)
    requires Cleared(s, scheme, cursor, ranges) && scheme.word != []
    requires FindScheme(s, scheme.word, cursor) == Some(i)
    ensures Counts(s, scheme.word, i)
    ensures var found := Credential(s, scheme, i);
      Cleared(s, scheme, SpanEnd(s, scheme.word, i), if found.Some? then ranges + [found.value] else ranges)
  {
    NextCounts(s, scheme.word, cursor, i);
    var find, end := Credentials(s, scheme), SpanEnd(s, scheme.word, i);
    forall k | cursor <= k < end && k != i ensures find(k).None? {
      assert !Counts(s, scheme.word, k);
    }
    CollectsNothing(find, cursor, i, ranges);
    CollectsMore(find, i, end, ranges, find(i));
  }

  lemma ClearedEnds(s: seq<byte>, scheme: Scheme, cursor: nat, ranges: seq<Range>)
    requires Cleared(s, scheme, cursor, ranges) && cursor <= |s| && FindScheme(s, scheme.word, cursor).None?
    ensures Collects(Credentials(s, scheme), |s|, ranges)
  {
    forall k | cursor <= k < |s| ensures Credentials(s, scheme)(k).None? {
      if SchemeAt(s, scheme.word, k) {
        FindSchemeIsFirst(s, scheme.word, cursor, k);
      }
    }
    CollectsNothing(Credentials(s, scheme), cursor, |s|, ranges);
  }

  lemma CollectsNothing(find: nat -> Option<Range>, n: nat, end: nat, ranges: seq<Range>)
    requires Collects(find, n, ranges) && n <= end
    requires forall k :: n <= k < end ==> find(k).None?
    ensures Collects(find, end, ranges)
  {
  }

  method CollectScheme(s: seq<byte>, scheme: Scheme) returns (ranges: seq<Range>)
    requires Sliceable(s) && scheme.word != []
    ensures Collects(Credentials(s, scheme), |s|, ranges)
  {
    ranges := [];
    var cursor := 0;
    while cursor + |scheme.word| <= |s|
      invariant 0 <= cursor <= |s| && Cleared(s, scheme, cursor, ranges)
      decreases |s| - cursor
    {
      var found := FindIgnoringCase(s, scheme.word, cursor);
      if found.None? {
        ClearedEnds(s, scheme, cursor, ranges);
        return;
      }
      var start := found.value;
      ClearedNext(s, scheme, cursor, ranges, start);
      var candidate := TakeScheme(s, scheme.word, start);
      cursor := start + |scheme.word|;
      if candidate.Some? {
        var value := candidate.value;
        if scheme.looks(Slice(s, value.start, value.end)) {
          ranges := ranges + [value];
        }
        cursor := Max(value.end, cursor);
      }
    }
    ClearedEnds(s, scheme, cursor, ranges);
  }

  // ----- whole tokens: JSON web tokens and vendor-prefixed credentials

  /** Tokens are maximal runs of `part` bytes that start with `prefix` and have the shape `looks`. */
  datatype TokenKind = TokenKind(prefix: string, part: byte -> bool, looks: seq<byte> -> bool)

  ghost predicate AsciiKind(kind: TokenKind) {
    forall b :: kind.part(b) ==> IsAscii(b)
  }

  predicate TokenStart(kind: TokenKind, s: seq<byte>, i: nat) {
    && i < |s| && kind.part(s[i])
    && HasPrefix(s[i..], kind.prefix)
    && (i == 0 || !kind.part(s[i - 1]))
  }

  function TokenAt(kind: TokenKind, s: seq<byte>, i: nat): Option<Range> {
    if !TokenStart(kind, s, i) then None
    else
      var end := RunEnd(s, i, kind.part);
      if kind.looks(s[i..end]) then Some(Range(i, end)) else None
  }

  function Tokens(kind: TokenKind, s: seq<byte>): nat -> Option<Range> {
    (i: nat) => TokenAt(kind, s, i)
  }

  lemma TokenFits(kind: TokenKind, s: seq<byte>, i: nat)
    requires Sliceable(s) && AsciiKind(kind) && TokenStart(kind, s, i)
    ensures Nonempty(s, Range(i, RunEnd(s, i, kind.part)))
  {
    TouchesAscii(s, Range(i, RunEnd(s, i, kind.part)));
  }

  /** No token starts inside another, so the cursor may jump over a run it has scanned. */
  lemma NoTokenInside(kind: TokenKind, s: seq<byte>, i: nat)
    requires TokenStart(kind, s, i)
    ensures forall k :: i < k < RunEnd(s, i, kind.part) ==> Tokens(kind, s)(k).None?
  {
    forall k | i < k < RunEnd(s, i, kind.part) ensures Tokens(kind, s)(k).None? {
      assert kind.part(s[k - 1]);
    }
  }

  method TakeToken(kind: TokenKind, s: seq<byte>, i: nat, skip: nat) returns (end: nat, secret: Option<Range>)
    requires Sliceable(s) && AsciiKind(kind) && TokenStart(kind, s, i)
    requires i < i + skip <= |s| && forall k :: i <= k < i + skip ==> kind.part(s[k])
    ensures end == RunEnd(s, i, kind.part) && end > i
    ensures secret == Tokens(kind, s)(i)
  {
    end := ScanForward(s, i + skip, kind.part);
    RunFrom(s, i, skip, kind.part);
    TokenFits(kind, s, i);
    secret := if kind.looks(Slice(s, i, end)) then Some(Range(i, end)) else None;
  }

  lemma {:induction false} RunFrom(s: seq<byte>, i: nat, skip: nat, p: byte -> bool)
    requires i + skip <= |s| && forall k :: i <= k < i + skip ==> p(s[k])
    ensures RunEnd(s, i, p) == RunEnd(s, i + skip, p)
    decreases skip
  {
    if skip > 0 {
      RunFrom(s, i + 1, skip - 1, p);
    }
  }

  method CollectPrefixed(kind: TokenKind, s: seq<byte>) returns (ranges: seq<Range>)
    requires Sliceable(s) && AsciiKind(kind) && kind.prefix == ""
    ensures Collects(Tokens(kind, s), |s|, ranges)
  {
    ranges := [];
    var cursor := 0;
    while cursor < |s|
      invariant cursor <= |s| && Collects(Tokens(kind, s), cursor, ranges)
    {
      if !kind.part(s[cursor]) || (cursor > 0 && kind.part(s[cursor - 1])) {
        CollectsMore(Tokens(kind, s), cursor, cursor + 1, ranges, None);
        cursor := cursor + 1;
        continue;
      }
      var end, secret := TakeToken(kind, s, cursor, 1);
      NoTokenInside(kind, s, cursor);
      CollectsMore(Tokens(kind, s), cursor, end, ranges, secret);
      if secret.Some? {
        ranges := ranges + [secret.value];
      }
      cursor := end;
    }
  }

  method CollectJwts(kind: TokenKind, s: seq<byte>) returns (ranges: seq<Range>)
    requires Sliceable(s) && AsciiKind(kind) && kind.prefix != ""
    requires forall i, b :: 0 <= i < |kind.prefix| && IsByte(b, kind.prefix[i]) ==> kind.part(b)
    ensures Collects(Tokens(kind, s), |s|, ranges)
  {
    ranges := [];
    var cursor := 0;
    while cursor < |s|
      invariant cursor <= |s| && Collects(Tokens(kind, s), cursor, ranges)
      decreases |s| - cursor
    {
      var secret := None;
      if HasPrefix(s[cursor..], kind.prefix) && (cursor == 0 || !kind.part(s[cursor - 1])) {
        assert forall k :: 0 <= k < |kind.prefix| ==> s[cursor + k] == s[cursor..][k];
        assert forall k :: cursor <= k < cursor + |kind.prefix| ==> kind.part(s[k]) by {
          forall k | cursor <= k < cursor + |kind.prefix| ensures kind.part(s[k]) {
            assert IsByte(s[cursor..][k - cursor], kind.prefix[k - cursor]);
          }
        }
        var end;
        end, secret := TakeToken(kind, s, cursor, |kind.prefix|);
        if secret.Some? {
          NoTokenInside(kind, s, cursor);
          CollectsMore(Tokens(kind, s), cursor, end, ranges, secret);
          ranges := ranges + [secret.value];
          cursor := end;
          continue;
        }
      }
      CollectsMore(Tokens(kind, s), cursor, cursor + 1, ranges, None);
      cursor := cursor + 1;
    }
  }

  // ----- merging

  predicate Inside(r: Range, p: nat) {
    r.start <= p < r.end
  }

  ghost predicate Covers(ranges: seq<Range>, p: nat) {
    exists i :: 0 <= i < |ranges| && Inside(ranges[i], p)
  }

  /** Nonempty ranges in order, with at least one byte between neighbours. */
  ghost predicate Separated(ranges: seq<Range>) {
    && (forall i :: 0 <= i < |ranges| ==> ranges[i].start < ranges[i].end)
    && (forall i, j :: 0 <= i < j < |ranges| ==> ranges[i].end < ranges[j].start)
  }

  /** The ranges that survive the filter before the merge. */
  predicate Kept(s: seq<byte>, r: Range) {
    Nonempty(s, r) && s[r.start..r.end] != REDACTED
  }

  function Retain(s: seq<byte>, ranges: seq<Range>): (kept: seq<Range>)
    ensures forall r :: r in kept <==> r in ranges && Kept(s, r)
  {
    if ranges == [] then []
    else (if Kept(s, ranges[0]) then [ranges[0]] else []) + Retain(s, ranges[1..])
  }

  predicate RangeLe(a: Range, b: Range) {
    a.start < b.start || (a.start == b.start && a.end <= b.end)
  }

  /** Adds one range to a merged list that starts no later than it. */
  function Merge(merged: seq<Range>, r: Range): seq<Range> {
    if merged != [] && r.start <= merged[|merged| - 1].end then
      var last := merged[|merged| - 1];
      merged[|merged| - 1 := Range(last.start, Max(last.end, r.end))]
    else merged + [r]
  }

  lemma MergeKeeps(s: seq<byte>, merged: seq<Range>, r: Range)
    requires Separated(merged) && Nonempty(s, r)
    requires forall i :: 0 <= i < |merged| ==> Nonempty(s, merged[i]) && merged[i].start <= r.start
    ensures var m := Merge(merged, r);
      && Separated(m)
      && (forall i :: 0 <= i < |m| ==> Nonempty(s, m[i]) && m[i].start <= r.start)
  {
    var m, n := Merge(merged, r), |merged|;
    if n > 0 && r.start <= merged[n - 1].end {
      var joined := Range(merged[n - 1].start, Max(merged[n - 1].end, r.end));
      assert m == merged[..n - 1] + [joined];
    } else {
      assert m == merged + [r];
      assert n > 0 ==> forall i :: 0 <= i < n ==> merged[i].end <= merged[n - 1].end;
    }
  }

  lemma MergeCovers(merged: seq<Range>, r: Range, p: nat)
    requires forall i :: 0 <= i < |merged| ==> merged[i].start <= r.start
    ensures Covers(Merge(merged, r), p) <==> Covers(merged, p) || Inside(r, p)
  {
    var m, n := Merge(merged, r), |merged|;
    if n > 0 && r.start <= merged[n - 1].end {
      assert m[n - 1] == Range(merged[n - 1].start, Max(merged[n - 1].end, r.end));
      assert forall i :: 0 <= i < n - 1 ==> m[i] == merged[i];
      if Inside(r, p) {
        assert Inside(m[n - 1], p);
      }
    } else {
      assert m[n] == r;
      assert forall i :: 0 <= i < n ==> m[i] == merged[i];
    }
  }

  /** `merged` is the separated list that covers exactly the union of the kept ranges. */
  ghost predicate IsMerged(s: seq<byte>, ranges: seq<Range>, merged: seq<Range>) {
    && Separated(merged)
    && (forall i :: 0 <= i < |merged| ==> Nonempty(s, merged[i]))
    && (forall p :: Covers(merged, p) <==> exists r :: r in ranges && Kept(s, r) && Inside(r, p))
  }

  ghost predicate MergedUpTo(s: seq<byte>, sorted: seq<Range>, i: nat, merged: seq<Range>)
    requires i <= |sorted|
  {
    && Separated(merged)
    && (forall k :: 0 <= k < |merged| ==> Nonempty(s, merged[k]))
    && (i < |sorted| ==> forall k :: 0 <= k < |merged| ==> merged[k].start <= sorted[i].start)
    && (forall p :: Covers(merged, p) <==> Covers(sorted[..i], p))
  }

  lemma MergeStep(s: seq<byte>, sorted: seq<Range>, i: nat, merged: seq<Range>)
    requires i < |sorted| && SortedBy(RangeLe, sorted) && Nonempty(s, sorted[i])
    requires MergedUpTo(s, sorted, i, merged)
    ensures MergedUpTo(s, sorted, i + 1, Merge(merged, sorted[i]))
  {
    MergeKeeps(s, merged, sorted[i]);
    forall p ensures Covers(Merge(merged, sorted[i]), p) <==> Covers(sorted[..i + 1], p) {
      MergeCovers(merged, sorted[i], p);
      CoversAppend(sorted, i, p);
    }
    assert i + 1 < |sorted| ==> RangeLe(sorted[i], sorted[i + 1]);
  }

  lemma MergeEnds(s: seq<byte>, ranges: seq<Range>, sorted: seq<Range>, merged: seq<Range>)
    requires MergedUpTo(s, sorted, |sorted|, merged)
    requires forall r :: r in sorted <==> r in ranges && Kept(s, r)
    ensures IsMerged(s, ranges, merged)
  {
    assert sorted[..|sorted|] == sorted;
    forall p ensures Covers(merged, p) <==> exists r :: r in ranges && Kept(s, r) && Inside(r, p) {
      CoversMembers(sorted, p);
    }
  }

  method NormalizeRanges(s: seq<byte>, ranges: seq<Range>) returns (merged: seq<Range>)
    ensures IsMerged(s, ranges, merged)
  {
    var sorted := Sort(RangeLe, Retain(s, ranges));
    SortSorts(RangeLe, Retain(s, ranges));
    SortMembers(RangeLe, Retain(s, ranges));
    merged := [];
    for i := 0 to |sorted|
      invariant MergedUpTo(s, sorted, i, merged)
    {
      assert sorted[i] in sorted;
      MergeStep(s, sorted, i, merged);
      var last := |merged| - 1;
      if merged != [] && sorted[i].start <= merged[last].end {
        merged := merged[last := Range(merged[last].start, Max(merged[last].end, sorted[i].end))];
      } else {
        merged := merged + [sorted[i]];
      }
    }
    MergeEnds(s, ranges, sorted, merged);
  }

  lemma CoversAppend(ranges: seq<Range>, i: nat, p: nat)
    requires i < |ranges|
    ensures Covers(ranges[..i + 1], p) <==> Covers(ranges[..i], p) || Inside(ranges[i], p)
  {
    assert ranges[..i + 1][i] == ranges[i];
    assert forall k :: 0 <= k < i ==> ranges[..i + 1][k] == ranges[..i][k];
  }

  lemma CoversMembers(ranges: seq<Range>, p: nat)
    ensures Covers(ranges, p) <==> exists r :: r in ranges && Inside(r, p)
  {
  }

  ghost predicate SameCover(a: seq<Range>, b: seq<Range>) {
    forall p :: Covers(a, p) <==> Covers(b, p)
  }

  lemma FirstIsCovered(a: seq<Range>)
    requires Separated(a) && a != []
    ensures Covers(a, a[0].start)
  {
    assert Inside(a[0], a[0].start);
  }

  lemma SameRest(a: seq<Range>, b: seq<Range>)
    requires Separated(a) && Separated(b) && a != [] && b != [] && a[0] == b[0] && SameCover(a, b)
    ensures Separated(a[1..]) && Separated(b[1..]) && SameCover(a[1..], b[1..])
  {
    forall p ensures Covers(a[1..], p) <==> Covers(b[1..], p) {
      CoversRest(a, p);
      CoversRest(b, p);
    }
  }

  /** The merged list is determined by the bytes it covers. */
  lemma {:induction false} MergedIsUnique(a: seq<Range>, b: seq<Range>)
    requires Separated(a) && Separated(b) && SameCover(a, b)
    ensures a == b
  {
    if a != [] { FirstIsCovered(a); }
    if b != [] { FirstIsCovered(b); }
    if a != [] && b != [] {
      FirstRange(a, b);
      SameRest(a, b);
      MergedIsUnique(a[1..], b[1..]);
      assert a == [a[0]] + a[1..] && b == [b[0]] + b[1..];
    }
  }

  lemma FirstRange(a: seq<Range>, b: seq<Range>)
    requires Separated(a) && Separated(b) && a != [] && b != []
    requires forall p :: Covers(a, p) <==> Covers(b, p)
    ensures a[0] == b[0]
  {
    assert Inside(a[0], a[0].start) && Covers(b, a[0].start);
    assert Inside(b[0], b[0].start) && Covers(a, b[0].start);
    FirstRangeStart(a, b);
    FirstRangeStart(b, a);
    FirstRangeEnd(a, b);
    FirstRangeEnd(b, a);
  }

  lemma FirstRangeStart(a: seq<Range>, b: seq<Range>)
    requires Separated(a) && Separated(b) && a != [] && b != []
    requires Covers(b, a[0].start)
    ensures b[0].start <= a[0].start
  {
    var i :| 0 <= i < |b| && Inside(b[i], a[0].start);
    assert i > 0 ==> b[0].end < b[i].start;
  }

  lemma FirstRangeEnd(a: seq<Range>, b: seq<Range>)
    requires Separated(a) && Separated(b) && a != [] && b != []
    requires forall p :: Covers(a, p) <==> Covers(b, p)
    requires a[0].start == b[0].start
    ensures a[0].end <= b[0].end
  {
    var first, end := a[0], b[0].end;
    assert !Covers(b, end);
    assert Inside(first, end) ==> Covers(a, end);
  }

  lemma CoversRest(a: seq<Range>, p: nat)
    requires Separated(a) && a != []
    ensures Covers(a[1..], p) <==> Covers(a, p) && !Inside(a[0], p)
  {
    assert forall i :: 0 <= i < |a| - 1 ==> a[1..][i] == a[i + 1];
    assert forall i :: 0 < i < |a| ==> a[i] == a[1..][i - 1];
  }

  // ----- rendering

  ghost predicate Ordered(s: seq<byte>, ranges: seq<Range>) {
    && (forall i :: 0 <= i < |ranges| ==> ranges[i].start <= ranges[i].end <= |s|)
    && (forall i, j :: 0 <= i < j < |ranges| ==> ranges[i].end <= ranges[j].start)
  }

  /** The text with each range replaced by one marker and every other byte kept, from the last range back. */
  ghost function Replace(s: seq<byte>, ranges: seq<Range>, marker: seq<byte>): seq<byte>
    requires Ordered(s, ranges)
    decreases |ranges|
  {
    if ranges == [] then s
    else
      var last := ranges[|ranges| - 1];
      Replace(s[..last.start], ranges[..|ranges| - 1], marker) + marker + s[last.end..]
  }

  lemma ReplaceExtends(s: seq<byte>, t: seq<byte>, ranges: seq<Range>, marker: seq<byte>)
    requires Ordered(s, ranges)
    ensures Replace(s + t, ranges, marker) == Replace(s, ranges, marker) + t
  {
    if ranges != [] {
      var last := ranges[|ranges| - 1];
      assert (s + t)[..last.start] == s[..last.start] && (s + t)[last.end..] == s[last.end..] + t;
    } else {
      assert Replace(s + t, ranges, marker) == s + t;
    }
  }

  /** Rendering up to the end of range `i`, from rendering up to the end of the one before. */
  lemma ReplaceNext(s: seq<byte>, cursor: nat, ranges: seq<Range>, i: nat, marker: seq<byte>)
    requires i < |ranges| && cursor <= ranges[i].start <= ranges[i].end <= |s|
    requires Ordered(s[..cursor], ranges[..i])
    ensures Ordered(s[..ranges[i].end], ranges[..i + 1])
    ensures Replace(s[..ranges[i].end], ranges[..i + 1], marker)
      == Replace(s[..cursor], ranges[..i], marker) + s[cursor..ranges[i].start] + marker
  {
    var r := ranges[i];
    assert ranges[..i + 1][i] == r && ranges[..i + 1][..i] == ranges[..i];
    assert forall k :: 0 <= k < i ==> ranges[..i + 1][k] == ranges[..i][k];
    assert Ordered(s[..r.end], ranges[..i + 1]);
    assert s[..r.end][..r.start] == s[..cursor] + s[cursor..r.start] && s[..r.end][r.end..] == [];
    ReplaceExtends(s[..cursor], s[cursor..r.start], ranges[..i], marker);
    var whole := Replace(s[..r.end], ranges[..i + 1], marker);
    assert whole == Replace(s[..r.end][..r.start], ranges[..i], marker) + marker + [];
  }

  lemma ReplaceEnds(s: seq<byte>, cursor: nat, ranges: seq<Range>, marker: seq<byte>)
    requires cursor <= |s| && Ordered(s[..cursor], ranges)
    ensures Ordered(s, ranges)
    ensures Replace(s, ranges, marker) == Replace(s[..cursor], ranges, marker) + s[cursor..]
  {
    ReplaceExtends(s[..cursor], s[cursor..], ranges, marker);
    assert s[..cursor] + s[cursor..] == s;
  }

  ghost predicate RenderedUpTo(s: seq<byte>, ranges: seq<Range>, marker: seq<byte>, i: nat, cursor: nat, output: seq<byte>)
    requires i <= |ranges|
  {
    && cursor <= |s| && IsBoundary(s, cursor)
    && (i < |ranges| ==> cursor <= ranges[i].start)
    && Ordered(s[..cursor], ranges[..i])
    && output == Replace(s[..cursor], ranges[..i], marker)
  }

  lemma RenderStep(s: seq<byte>, ranges: seq<Range>, marker: seq<byte>, i: nat, cursor: nat, output: seq<byte>)
    requires i < |ranges| && Separated(ranges) && Fits(s, ranges[i])
    requires RenderedUpTo(s, ranges, marker, i, cursor, output)
    ensures RenderedUpTo(s, ranges, marker, i + 1, ranges[i].end, output + s[cursor..ranges[i].start] + marker)
  {
    ReplaceNext(s, cursor, ranges, i, marker);
  }

  method RenderRedacted(s: seq<byte>, ranges: seq<Range>, marker: seq<byte>) returns (output: seq<byte>)
    requires Separated(ranges) && forall i :: 0 <= i < |ranges| ==> Fits(s, ranges[i])
    ensures Ordered(s, ranges) && output == Replace(s, ranges, marker)
  {
    output := [];
    var cursor := 0;
    for i := 0 to |ranges|
      invariant 0 <= cursor && RenderedUpTo(s, ranges, marker, i, cursor, output)
    {
      RenderStep(s, ranges, marker, i, cursor, output);
      output := output + Slice(s, cursor, ranges[i].start);
      output := output + marker;
      cursor := ranges[i].end;
    }
    assert ranges[..|ranges|] == ranges;
    ReplaceEnds(s, cursor, ranges, marker);
    output := output + Slice(s, cursor, |s|);
  }

  lemma {:induction false} ReplaceIsValid(s: seq<byte>, ranges: seq<Range>, marker: seq<byte>)
    requires ValidUtf8(s) && ValidUtf8(marker)
    requires Ordered(s, ranges) && forall i :: 0 <= i < |ranges| ==> Fits(s, ranges[i])
    ensures ValidUtf8(Replace(s, ranges, marker))
    decreases |ranges|
  {
    if ranges != [] {
      var n := |ranges| - 1;
      var last, front := ranges[n], ranges[..n];
      assert Fits(s, last);
      SplitValid(s, last.start);
      SplitValid(s, last.end);
      FrontFits(s, ranges);
      ReplaceIsValid(s[..last.start], front, marker);
      var head := Replace(s[..last.start], front, marker);
      ConcatValid(head, marker);
      ConcatValid(head + marker, s[last.end..]);
    }
  }

  lemma FrontFits(s: seq<byte>, ranges: seq<Range>)
    requires ranges != [] && Ordered(s, ranges) && forall i :: 0 <= i < |ranges| ==> Fits(s, ranges[i])
    ensures var n := |ranges| - 1;
      && Ordered(s[..ranges[n].start], ranges[..n])
      && forall i :: 0 <= i < n ==> Fits(s[..ranges[n].start], ranges[..n][i])
  {
    var n := |ranges| - 1;
    forall i | 0 <= i < n ensures Fits(s[..ranges[n].start], ranges[..n][i]) {
      assert Fits(s, ranges[i]);
    }
  }

  lemma {:induction false} AsciiIsValid(s: seq<byte>)
    requires forall i :: 0 <= i < |s| ==> IsAscii(s[i])
    ensures ValidUtf8(s)
  {
    if s != [] {
      AsciiIsValid(s[1..]);
    }
  }

  // ----- the whole redaction

  function SecretNames(): KeyNames {
    KeyNames(IsSensitiveKey, IsQueryOnlyKey)
  }

  function BearerScheme(): Scheme {
    Scheme("bearer", LooksLikeBearer)
  }

  function BasicScheme(): Scheme {
    Scheme("basic", LooksLikeBasic)
  }

  function JwtTokens(): TokenKind {
    TokenKind("eyJ", IsJwtByte, IsJwtLike)
  }

  function PrefixedTokens(): TokenKind {
    TokenKind("", IsTokenByte, LooksLikePrefixed)
  }

  /** The ranges that any of the collectors reports for `s`. */
  ghost predicate IsSecret(s: seq<byte>, r: Range) {
    || Found(Assignments(SecretNames(), s), |s|, r)
    || Found(Credentials(s, BearerScheme()), |s|, r)
    || Found(Credentials(s, BasicScheme()), |s|, r)
    || Found(Tokens(JwtTokens(), s), |s|, r)
    || Found(Tokens(PrefixedTokens(), s), |s|, r)
  }

  lemma TokenKindsAreAscii()
    ensures AsciiKind(JwtTokens()) && AsciiKind(PrefixedTokens())
    ensures forall i, b :: 0 <= i < |JwtTokens().prefix| && IsByte(b, JwtTokens().prefix[i]) ==> JwtTokens().part(b)
  {
  }

  lemma InFive<T>(a: seq<T>, b: seq<T>, c: seq<T>, d: seq<T>, e: seq<T>)
    ensures forall x :: x in a + b + c + d + e <==> x in a || x in b || x in c || x in d || x in e
  {
  }

  method SecretRanges(s: seq<byte>) returns (ranges: seq<Range>, merged: seq<Range>)
    requires Sliceable(s)
    ensures forall r :: r in ranges <==> IsSecret(s, r)
    ensures IsMerged(s, ranges, merged)
  {
    var assignments := CollectAssignments(SecretNames(), s);
    var bearers := CollectScheme(s, BearerScheme());
    var basics := CollectScheme(s, BasicScheme());
    TokenKindsAreAscii();
    var jwts := CollectJwts(JwtTokens(), s);
    var prefixed := CollectPrefixed(PrefixedTokens(), s);
    ranges := assignments + bearers + basics + jwts + prefixed;
    InFive(assignments, bearers, basics, jwts, prefixed);
    merged := NormalizeRanges(s, ranges);
  }

  /** The one separated list of ranges that covers exactly the secret bytes of `s`. */
  ghost predicate SecretsOf(s: seq<byte>, merged: seq<Range>) {
    && Separated(merged)
    && (forall i :: 0 <= i < |merged| ==> Nonempty(s, merged[i]))
    && (forall p :: Covers(merged, p) <==> exists r :: IsSecret(s, r) && Kept(s, r) && Inside(r, p))
  }

  /**
   Redacting valid text: there is exactly one list of separated ranges covering the secret bytes,
   each range becomes one marker, every other byte is kept in order, and the result is valid text.
   */
  method RedactText(s: seq<byte>) returns (text: seq<byte>, merged: seq<Range>)
    requires ValidUtf8(s)
    ensures SecretsOf(s, merged) && Ordered(s, merged)
    ensures text == Replace(s, merged, REDACTED)
    ensures ValidUtf8(text)
  {
    ValidIsSliceable(s);
    var ranges;
    ranges, merged := SecretRanges(s);
    MarkerIsAscii();
    AsciiIsValid(REDACTED);
    if merged == [] {
      return s, merged;
    }
    text := RenderRedacted(s, merged, REDACTED);
    ReplaceIsValid(s, merged, REDACTED);
  }

  lemma MarkerIsAscii()
    ensures forall i :: 0 <= i < |REDACTED| ==> IsAscii(REDACTED[i])
  {
  }

  lemma SecretsAreUnique(s: seq<byte>, a: seq<Range>, b: seq<Range>)
    requires SecretsOf(s, a) && SecretsOf(s, b)
    ensures a == b
  {
    MergedIsUnique(a, b);
  }

  lemma CredentialFits(s: seq<byte>, scheme: Scheme, r: Range)
    requires Sliceable(s) && Found(Credentials(s, scheme), |s|, r)
    ensures Nonempty(s, r)
  {
    var k :| 0 <= k < |s| && Credentials(s, scheme)(k) == Some(r);
    CandidateFits(s, scheme.word, k);
  }

  lemma TokenSecretFits(s: seq<byte>, kind: TokenKind, r: Range)
    requires Sliceable(s) && AsciiKind(kind) && Found(Tokens(kind, s), |s|, r)
    ensures Nonempty(s, r)
  {
    var i :| 0 <= i < |s| && Tokens(kind, s)(i) == Some(r);
    TokenFits(kind, s, i);
  }

  /** Every range any collector reports is a nonempty slice on character boundaries. */
  lemma EverySecretFits(s: seq<byte>, r: Range)
    requires ValidUtf8(s) && IsSecret(s, r)
    ensures Nonempty(s, r)
  {
    ValidIsSliceable(s);
    TokenKindsAreAscii();
    if Found(Assignments(SecretNames(), s), |s|, r) {
      var i :| 0 <= i < |s| && Assignments(SecretNames(), s)(i) == Some(r);
      AssignedSecretFits(SecretNames(), s, i);
    } else if Found(Credentials(s, BearerScheme()), |s|, r) {
      CredentialFits(s, BearerScheme(), r);
    } else if Found(Credentials(s, BasicScheme()), |s|, r) {
      CredentialFits(s, BasicScheme(), r);
    } else if Found(Tokens(JwtTokens(), s), |s|, r) {
      TokenSecretFits(s, JwtTokens(), r);
    } else {
      TokenSecretFits(s, PrefixedTokens(), r);
    }
  }
}
