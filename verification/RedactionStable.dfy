/**
 Where redaction is idempotent: in a text without separators and scheme words only whole tokens are
 replaced, and no token can start, end or join anew beside a marker.
 */
module RedactionStable {
  import opened Prelude
  import opened Utf8
  import opened SecretShapes
  import opened Redaction

  /** No `=` or `:`, and no `bearer` or `basic` in any case: whatever is secret here is a token. */
  predicate OnlyTokens(s: seq<byte>) {
    && (forall i :: 0 <= i < |s| ==> !IsSeparator(s[i]))
    && (forall k :: 0 <= k < |s| ==> !SchemeAt(s, "bearer", k) && !SchemeAt(s, "basic", k))
  }

  // ----- text around a marker

  /** The marker has brackets where no token can pass, and its word is no token. */
  ghost predicate Walled(kind: TokenKind) {
    && !kind.part(91) && !kind.part(93) && (forall k :: 1 <= k < 9 ==> kind.part(REDACTED[k]))
    && (forall i, b :: 0 <= i < |kind.prefix| && IsByte(b, kind.prefix[i]) ==> kind.part(b))
    && !kind.looks(REDACTED[1..9])
  }

  lemma KindsAreWalled()
    ensures Walled(JwtTokens()) && Walled(PrefixedTokens())
  {
    var word := REDACTED[1..9];
    NoDots(word);
    assert forall i, b :: 0 <= i < 3 && IsByte(b, "eyJ"[i]) ==> IsJwtByte(b);
  }

  lemma {:induction false} NoDots(s: seq<byte>)
    requires forall i :: 0 <= i < |s| ==> !IsByte(s[i], '.')
    ensures |SplitDots(s)| == 1
  {
    if s != [] {
      NoDots(s[1..]);
    }
  }

  lemma RunEndIs(s: seq<byte>, i: nat, p: byte -> bool, e: nat)
    requires i <= e <= |s| && (forall k :: i <= k < e ==> p(s[k])) && (e < |s| ==> !p(s[e]))
    ensures RunEnd(s, i, p) == e
  {
  }

  /** A token before a marker is one of the text before it. */
  lemma TokenBefore(kind: TokenKind, u: seq<byte>, w: seq<byte>, i: nat)
    requires w != [] && !kind.part(w[0])
    requires forall k, b :: 0 <= k < |kind.prefix| && IsByte(b, kind.prefix[k]) ==> kind.part(b)
    requires i < |u| && TokenAt(kind, u + w, i).Some?
    ensures TokenAt(kind, u, i).Some?
  {
    var t, e := u + w, RunEnd(u, i, kind.part);
    RunEndIs(t, i, kind.part, e);
    assert t[i..e] == u[i..e];
    assert HasPrefix(u[i..], kind.prefix) by {
      var n := |kind.prefix|;
      assert HasPrefix(t[i..], kind.prefix);
      assert forall j :: 0 <= j < n ==> t[i..][j] == t[i + j] && kind.part(t[i + j]);
      assert t[|u|] == w[0];
      assert i + n <= |u|;
      assert forall j :: 0 <= j < n ==> u[i..][j] == t[i..][j];
    }
  }

  /** A token behind a byte that no token passes is one of the text behind it. */
  lemma TokenBehind(kind: TokenKind, w: seq<byte>, v: seq<byte>, i: nat)
    requires w != [] && !kind.part(w[|w| - 1])
    requires i >= |w| && TokenAt(kind, w + v, i).Some?
    ensures TokenAt(kind, v, i - |w|).Some?
  {
    var t, j := w + v, i - |w|;
    var e := RunEnd(v, j, kind.part);
    RunEndIs(t, i, kind.part, e + |w|);
    assert t[i..e + |w|] == v[j..e];
    assert t[i..] == v[j..];
  }

  /** Brackets around a word hold no token but the word. */
  lemma NoTokenInBrackets(kind: TokenKind, u: seq<byte>, m: seq<byte>, v: seq<byte>, i: nat)
    requires |m| >= 3 && !kind.part(m[0]) && !kind.part(m[|m| - 1])
    requires (forall k :: 1 <= k < |m| - 1 ==> kind.part(m[k])) && !kind.looks(m[1..|m| - 1])
    requires |u| <= i < |u| + |m|
    ensures TokenAt(kind, u + m + v, i).None?
  {
    var t, n, last := u + m + v, |u|, |m| - 1;
    assert forall k :: n <= k < n + |m| ==> t[k] == m[k - n];
    if i == n + 1 {
      RunEndIs(t, i, kind.part, n + last);
      assert t[i..n + last] == m[1..last];
    } else if n < i < n + last {
      assert kind.part(t[i - 1]);
    }
  }

  ghost predicate HasToken(kind: TokenKind, s: seq<byte>) {
    exists i :: 0 <= i < |s| && TokenAt(kind, s, i).Some?
  }

  ghost function Tokened(kind: TokenKind): seq<byte> -> bool {
    s => HasToken(kind, s)
  }

  ghost predicate HasScheme(word: string, s: seq<byte>) {
    exists k :: 0 <= k < |s| && SchemeAt(s, word, k)
  }

  ghost function Schemed(word: string): seq<byte> -> bool {
    s => HasScheme(word, s)
  }

  ghost predicate HasSeparator(s: seq<byte>) {
    exists i :: 0 <= i < |s| && IsSeparator(s[i])
  }

  ghost function SeparatedText(): seq<byte> -> bool {
    s => HasSeparator(s)
  }

  /** What is found in a text with a marker is found before it or behind it. */
  ghost predicate Splits(has: seq<byte> -> bool) {
    forall u, v :: SplitsAt(has, u, v)
  }

  ghost predicate SplitsAt(has: seq<byte> -> bool, u: seq<byte>, v: seq<byte>) {
    has(u + REDACTED + v) ==> has(u) || has(v)
  }

  lemma TokensSplit(kind: TokenKind)
    requires Walled(kind)
    ensures Splits(Tokened(kind))
  {
    forall u, v ensures SplitsAt(Tokened(kind), u, v) {
      if HasToken(kind, u + REDACTED + v) {
        TokenSplits(kind, u, v);
      }
    }
  }

  lemma TokenSplits(kind: TokenKind, u: seq<byte>, v: seq<byte>)
    requires Walled(kind) && HasToken(kind, u + REDACTED + v)
    ensures HasToken(kind, u) || HasToken(kind, v)
  {
    var i :| 0 <= i < |u + REDACTED + v| && TokenAt(kind, u + REDACTED + v, i).Some?;
    BracketsSplit(kind, u, REDACTED, v, i);
  }

  lemma BracketsSplit(kind: TokenKind, u: seq<byte>, m: seq<byte>, v: seq<byte>, i: nat)
    requires |m| >= 3 && !kind.part(m[0]) && !kind.part(m[|m| - 1])
    requires (forall k :: 1 <= k < |m| - 1 ==> kind.part(m[k])) && !kind.looks(m[1..|m| - 1])
    requires forall k, b :: 0 <= k < |kind.prefix| && IsByte(b, kind.prefix[k]) ==> kind.part(b)
    requires i < |u + m + v| && TokenAt(kind, u + m + v, i).Some?
    ensures HasToken(kind, u) || HasToken(kind, v)
  {
    assert u + m + v == u + (m + v);
    if i < |u| {
      TokenBefore(kind, u, m + v, i);
    } else if i < |u| + |m| {
      NoTokenInBrackets(kind, u, m, v, i);
    } else {
      TokenBehind(kind, u + m, v, i);
    }
  }

  /** A scheme word begins with a letter that the marker lacks, and has no bracket. */
  ghost predicate SchemeWord(word: string) {
    word != [] && word[0] == 'b' && '[' !in word && ']' !in word
  }

  lemma SchemeByte(s: seq<byte>, word: string, k: nat, j: nat)
    requires SchemeAt(s, word, k) && j < |word|
    ensures IsByte(ToLower(s[k + j]), word[j])
  {
    assert s[k..k + |word|][j] == s[k + j];
  }

  lemma SchemesSplit(word: string)
    requires SchemeWord(word)
    ensures Splits(Schemed(word))
  {
    forall u, v ensures SplitsAt(Schemed(word), u, v) {
      if HasScheme(word, u + REDACTED + v) {
        SchemeSplits(word, u, v);
      }
    }
  }

  lemma SchemeSplits(word: string, u: seq<byte>, v: seq<byte>)
    requires SchemeWord(word) && HasScheme(word, u + REDACTED + v)
    ensures HasScheme(word, u) || HasScheme(word, v)
  {
    var t, n := u + REDACTED + v, |word|;
    var k :| 0 <= k < |t| && SchemeAt(t, word, k);
    SchemeByte(t, word, k, 0);
    assert forall j :: 0 <= j < 10 ==> t[|u| + j] == REDACTED[j];
    if k < |u| {
      if k + n > |u| {
        SchemeByte(t, word, k, |u| - k);
      }
      assert t[k..k + n] == u[k..k + n];
      assert SchemeAt(u, word, k);
    } else {
      var j := k - |u| - 10;
      assert t[k..k + n] == v[j..j + n];
      assert SchemeAt(v, word, j);
    }
  }

  lemma SeparatorsSplit()
    ensures Splits(SeparatedText())
  {
    forall u, v ensures SplitsAt(SeparatedText(), u, v) {
      if HasSeparator(u + REDACTED + v) {
        var t := u + REDACTED + v;
        var i :| 0 <= i < |t| && IsSeparator(t[i]);
        assert forall j :: 0 <= j < 10 ==> !IsSeparator(REDACTED[j]);
        assert i < |u| ==> t[i] == u[i];
        assert i >= |u| ==> i >= |u| + 10 && t[i] == v[i - |u| - 10];
      }
    }
  }

  // ----- the pieces of a redacted text

  /** A stretch that redaction keeps: from the start or the end of a range, to the start of one or the end. */
  ghost predicate IsPiece(ranges: seq<Range>, length: nat, e: nat, b: nat) {
    && e <= b <= length
    && (e == 0 || exists k :: 0 <= k < |ranges| && ranges[k].end == e)
    && (b == length || exists k :: 0 <= k < |ranges| && ranges[k].start == b)
    && (forall p :: e <= p < b ==> !Covers(ranges, p))
  }

  /** The last range of a redacted text splits it. */
  lemma {:induction false} LastRangeSplits(s: seq<byte>, ranges: seq<Range>, has: seq<byte> -> bool)
    requires Splits(has) && Ordered(s, ranges) && ranges != [] && has(Replace(s, ranges, REDACTED))
    ensures var n := |ranges| - 1;
      && Ordered(s[..ranges[n].start], ranges[..n])
      && (has(Replace(s[..ranges[n].start], ranges[..n], REDACTED)) || has(s[ranges[n].end..]))
  {
    var n := |ranges| - 1;
    assert SplitsAt(has, Replace(s[..ranges[n].start], ranges[..n], REDACTED), s[ranges[n].end..]);
  }

  lemma EveryTextIsPiece(s: seq<byte>)
    ensures IsPiece([], |s|, 0, |s|) && s[0..|s|] == s
  {
  }

  /** Whatever a redacted text holds that no marker can hold or join, one of its pieces holds. */
  lemma {:induction false} FoundInPiece(s: seq<byte>, ranges: seq<Range>, has: seq<byte> -> bool)
    returns (e: nat, b: nat)
    requires Splits(has) && Ordered(s, ranges) && has(Replace(s, ranges, REDACTED))
    ensures IsPiece(ranges, |s|, e, b) && has(s[e..b])
    decreases |ranges|
  {
    if ranges == [] {
      EveryTextIsPiece(s);
      e, b := 0, |s|;
    } else {
      var n := |ranges| - 1;
      var start, end := ranges[n].start, ranges[n].end;
      LastRangeSplits(s, ranges, has);
      if has(s[end..]) {
        LastPiece(s, ranges);
        e, b := end, |s|;
        assert s[e..b] == s[end..];
      } else {
        e, b := FoundInPiece(s[..start], ranges[..n], has);
        assert s[..start][e..b] == s[e..b];
        EarlierPiece(s, ranges, e, b);
      }
    }
  }

  lemma LastPiece(s: seq<byte>, ranges: seq<Range>)
    requires Ordered(s, ranges) && ranges != []
    ensures IsPiece(ranges, |s|, ranges[|ranges| - 1].end, |s|)
  {
    var n := |ranges| - 1;
    assert forall k :: 0 <= k < n ==> ranges[k].end <= ranges[n].start;
  }

  lemma EarlierPiece(s: seq<byte>, ranges: seq<Range>, e: nat, b: nat)
    requires Ordered(s, ranges) && ranges != []
    requires IsPiece(ranges[..|ranges| - 1], ranges[|ranges| - 1].start, e, b)
    ensures IsPiece(ranges, |s|, e, b)
  {
    var n := |ranges| - 1;
    var rest := ranges[..n];
    if e > 0 {
      var k :| 0 <= k < n && rest[k].end == e;
      assert ranges[k].end == e;
    }
    if b < ranges[n].start {
      var k :| 0 <= k < n && rest[k].start == b;
      assert ranges[k].start == b;
    }
    forall p | e <= p < b ensures !Covers(ranges, p) {
      assert !Covers(rest, p);
      assert forall k :: 0 <= k < n ==> ranges[k] == rest[k];
    }
  }

  // ----- only whole tokens are replaced

  lemma TokenSecrets(s: seq<byte>, r: Range)
    requires OnlyTokens(s)
    ensures IsSecret(s, r) ==> Found(Tokens(JwtTokens(), s), |s|, r) || Found(Tokens(PrefixedTokens(), s), |s|, r)
  {
    forall i | 0 <= i < |s|
      ensures Assignments(SecretNames(), s)(i).None?
      ensures Credentials(s, BearerScheme())(i).None? && Credentials(s, BasicScheme())(i).None?
    {
      assert !IsSeparator(s[i]) && !SchemeAt(s, "bearer", i) && !SchemeAt(s, "basic", i);
    }
  }

  /** A range that stands between bytes no token passes, and is not the marker. */
  ghost predicate StandsAlone(s: seq<byte>, r: Range) {
    && r.start < r.end <= |s| && s[r.start..r.end] != REDACTED
    && (r.end < |s| ==> !IsTokenByte(s[r.end]))
    && (r.start > 0 ==> !IsTokenByte(s[r.start - 1]))
  }

  lemma TokenStandsAlone(kind: TokenKind, s: seq<byte>, r: Range)
    requires Found(Tokens(kind, s), |s|, r) && !kind.part(91) && forall b :: IsTokenByte(b) ==> kind.part(b)
    ensures StandsAlone(s, r)
  {
    var i :| 0 <= i < |s| && Tokens(kind, s)(i) == Some(r);
    assert TokenAt(kind, s, i) == Some(r);
    assert r.start == i && r.end == RunEnd(s, i, kind.part);
    assert s[r.start..r.end][0] == s[i] && REDACTED[0] == 91;
  }

  lemma SecretStandsAlone(s: seq<byte>, r: Range)
    requires OnlyTokens(s) && IsSecret(s, r)
    ensures StandsAlone(s, r)
  {
    TokenSecrets(s, r);
    KindsAreWide();
    if Found(Tokens(JwtTokens(), s), |s|, r) {
      TokenStandsAlone(JwtTokens(), s, r);
    } else {
      TokenStandsAlone(PrefixedTokens(), s, r);
    }
  }

  lemma KindsAreWide()
    ensures !JwtTokens().part(91) && forall b :: IsTokenByte(b) ==> JwtTokens().part(b)
    ensures !PrefixedTokens().part(91) && forall b :: IsTokenByte(b) ==> PrefixedTokens().part(b)
  {
  }

  /** Separated ranges that cover exactly what these secrets cover, each of which stands alone. */
  ghost predicate CoversAlone(s: seq<byte>, merged: seq<Range>, secret: Range -> bool) {
    && Separated(merged)
    && (forall p :: Covers(merged, p) <==> exists r :: secret(r) && Inside(r, p))
    && (forall r :: secret(r) ==> StandsAlone(s, r))
  }

  lemma EndIsWall(s: seq<byte>, merged: seq<Range>, secret: Range -> bool, k: nat)
    requires CoversAlone(s, merged, secret) && k < |merged| && merged[k].end < |s|
    ensures !IsTokenByte(s[merged[k].end])
  {
    var end := merged[k].end;
    assert Inside(merged[k], end - 1) && Covers(merged, end - 1);
    assert !Covers(merged, end);
    var r :| secret(r) && Inside(r, end - 1);
    assert !Inside(r, end);
  }

  lemma StartIsWall(s: seq<byte>, merged: seq<Range>, secret: Range -> bool, k: nat)
    requires CoversAlone(s, merged, secret) && k < |merged| && 0 < merged[k].start <= |s|
    ensures !IsTokenByte(s[merged[k].start - 1])
  {
    var start := merged[k].start;
    assert Inside(merged[k], start) && Covers(merged, start);
    assert !Covers(merged, start - 1);
    var r :| secret(r) && Inside(r, start);
    assert !Inside(r, start - 1);
  }

  /** A piece meets the markers beside it with bytes no token passes. */
  lemma PieceHasWalls(s: seq<byte>, merged: seq<Range>, secret: Range -> bool, e: nat, b: nat)
    requires CoversAlone(s, merged, secret) && IsPiece(merged, |s|, e, b) && e < b
    ensures e > 0 ==> !IsTokenByte(s[e])
    ensures b < |s| ==> !IsTokenByte(s[b - 1])
  {
    if e > 0 {
      var k :| 0 <= k < |merged| && merged[k].end == e;
      EndIsWall(s, merged, secret, k);
    }
    if b < |s| {
      var k :| 0 <= k < |merged| && merged[k].start == b;
      StartIsWall(s, merged, secret, k);
    }
  }

  // ----- no new token

  lemma {:induction false} LastDot(s: seq<byte>)
    requires s != [] && IsByte(s[|s| - 1], '.')
    ensures var segments := SplitDots(s); |segments| >= 2 && segments[|segments| - 1] == []
  {
    var rest := SplitDots(s[1..]);
    if |s| == 1 {
      assert s[1..] == [] && rest == [[]];
      assert SplitDots(s) == [[]] + rest;
    } else {
      LastDot(s[1..]);
      assert SplitDots(s) == if IsByte(s[0], '.') then [[]] + rest else [[s[0]] + rest[0]] + rest[1..];
    }
  }

  /** A token can neither begin nor end with a byte that only joins tokens, such as the dot. */
  ghost predicate Firm(kind: TokenKind) {
    && (forall s :: s != [] && kind.looks(s) ==> IsTokenByte(s[|s| - 1]) || !kind.part(s[|s| - 1]))
    && (kind.prefix != "" ==> forall b :: IsByte(b, kind.prefix[0]) ==> IsTokenByte(b))
    && (kind.prefix == "" ==> forall b :: kind.part(b) ==> IsTokenByte(b))
  }

  lemma KindsAreFirm()
    ensures Firm(JwtTokens()) && Firm(PrefixedTokens())
  {
    forall s: seq<byte> | s != [] && IsJwtLike(s)
      ensures IsTokenByte(s[|s| - 1]) || !IsJwtByte(s[|s| - 1])
    {
      if IsByte(s[|s| - 1], '.') {
        LastDot(s);
      }
    }
  }

  lemma TokenIsFirm(kind: TokenKind, s: seq<byte>, j: nat)
    requires Firm(kind) && TokenAt(kind, s, j).Some?
    ensures var end := RunEnd(s, j, kind.part);
      j < end && IsTokenByte(s[j]) && IsTokenByte(s[end - 1])
  {
    var end := RunEnd(s, j, kind.part);
    var token := s[j..end];
    assert HasPrefix(s[j..], kind.prefix);
    assert kind.prefix != "" ==> IsByte(s[j..][0], kind.prefix[0]);
    assert token[|token| - 1] == s[end - 1];
    assert kind.looks(token);
  }

  lemma RunEmbeds(s: seq<byte>, e: nat, b: nat, j: nat, p: byte -> bool)
    requires e <= b <= |s| && j <= b - e && (RunEnd(s[e..b], j, p) == b - e ==> b == |s|)
    ensures RunEnd(s, e + j, p) == e + RunEnd(s[e..b], j, p)
  {
    var piece := s[e..b];
    var end := RunEnd(piece, j, p);
    assert forall k :: e + j <= k < e + end ==> s[k] == piece[k - e];
    assert end < |piece| ==> s[e + end] == piece[end];
    RunEndIs(s, e + j, p, e + end);
  }

  /** A token of a piece that ends where its text ends, or before, is a token of the text, at the same place. */
  lemma TokenEmbeds(kind: TokenKind, s: seq<byte>, e: nat, b: nat, j: nat)
    requires e <= b <= |s| && TokenAt(kind, s[e..b], j).Some?
    requires (j == 0 ==> e == 0) && (RunEnd(s[e..b], j, kind.part) == b - e ==> b == |s|)
    ensures TokenAt(kind, s, e + j).Some?
  {
    var piece := s[e..b];
    var end := RunEnd(piece, j, kind.part);
    RunEmbeds(s, e, b, j, kind.part);
    assert s[e + j] == piece[j] && (j > 0 ==> s[e + j - 1] == piece[j - 1]);
    assert s[e + j..e + end] == piece[j..end] by {
      assert forall k :: j <= k < end ==> piece[k] == s[e + k];
    }
    PrefixEmbeds(piece[j..], s[e + j..], kind.prefix);
  }

  lemma PrefixEmbeds(a: seq<byte>, b: seq<byte>, prefix: string)
    requires a <= b && HasPrefix(a, prefix)
    ensures HasPrefix(b, prefix)
  {
  }

  lemma PieceTokenIsToken(kind: TokenKind, s: seq<byte>, e: nat, b: nat, j: nat)
    requires Firm(kind) && e <= b <= |s| && TokenAt(kind, s[e..b], j).Some?
    requires (0 < e < b ==> !IsTokenByte(s[e])) && (e < b < |s| ==> !IsTokenByte(s[b - 1]))
    ensures TokenAt(kind, s, e + j).Some?
  {
    TokenIsFirm(kind, s[e..b], j);
    TokenEmbeds(kind, s, e, b, j);
  }

  /** No token of a kind that is all secret is left in a piece. */
  lemma NoTokenInPiece(kind: TokenKind, s: seq<byte>, merged: seq<Range>, secret: Range -> bool, e: nat, b: nat)
    requires Firm(kind) && CoversAlone(s, merged, secret) && IsPiece(merged, |s|, e, b)
    requires forall i :: TokenAt(kind, s, i).Some? ==> secret(TokenAt(kind, s, i).value)
    ensures !HasToken(kind, s[e..b])
  {
    if e < b {
      PieceHasWalls(s, merged, secret, e, b);
    }
    forall j | 0 <= j < b - e ensures TokenAt(kind, s[e..b], j).None? {
      PieceOffersNoToken(kind, s, merged, secret, e, b, j);
    }
  }

  lemma PieceOffersNoToken(
    kind: TokenKind, s: seq<byte>, merged: seq<Range>, secret: Range -> bool, e: nat, b: nat, j: nat)
    requires Firm(kind) && CoversAlone(s, merged, secret) && e <= b <= |s| && j < b - e && !Covers(merged, e + j)
    requires (0 < e < b ==> !IsTokenByte(s[e])) && (e < b < |s| ==> !IsTokenByte(s[b - 1]))
    requires TokenAt(kind, s, e + j).Some? ==> secret(TokenAt(kind, s, e + j).value)
    ensures TokenAt(kind, s[e..b], j).None?
  {
    var i := e + j;
    if TokenAt(kind, s, i).Some? {
      TokenIsCovered(kind, s, merged, secret, i);
    }
    if TokenAt(kind, s[e..b], j).Some? {
      PieceTokenIsToken(kind, s, e, b, j);
    }
  }

  lemma TokenIsCovered(kind: TokenKind, s: seq<byte>, merged: seq<Range>, secret: Range -> bool, i: nat)
    requires CoversAlone(s, merged, secret) && TokenAt(kind, s, i).Some? && secret(TokenAt(kind, s, i).value)
    ensures Covers(merged, i)
  {
    assert Inside(TokenAt(kind, s, i).value, i);
  }

  /** So none is in the redacted text. */
  lemma NoTokenLeft(kind: TokenKind, s: seq<byte>, merged: seq<Range>, secret: Range -> bool)
    requires Walled(kind) && Firm(kind) && Ordered(s, merged) && CoversAlone(s, merged, secret)
    requires forall i :: TokenAt(kind, s, i).Some? ==> secret(TokenAt(kind, s, i).value)
    ensures !HasToken(kind, Replace(s, merged, REDACTED))
  {
    if HasToken(kind, Replace(s, merged, REDACTED)) {
      TokensSplit(kind);
      var e, b := FoundInPiece(s, merged, Tokened(kind));
      NoTokenInPiece(kind, s, merged, secret, e, b);
    }
  }

  // ----- the second pass

  ghost function SecretIn(s: seq<byte>): Range -> bool {
    r => IsSecret(s, r) && Kept(s, r)
  }

  lemma SecretsCoverAlone(s: seq<byte>, merged: seq<Range>)
    requires OnlyTokens(s) && SecretsOf(s, merged)
    ensures CoversAlone(s, merged, SecretIn(s))
  {
    forall r | SecretIn(s)(r) ensures StandsAlone(s, r) {
      SecretStandsAlone(s, r);
    }
    forall p ensures Covers(merged, p) <==> exists r :: SecretIn(s)(r) && Inside(r, p) {
      if Covers(merged, p) {
        var r :| IsSecret(s, r) && Kept(s, r) && Inside(r, p);
        assert SecretIn(s)(r);
      }
    }
  }

  lemma TokensAreSecret(kind: TokenKind, s: seq<byte>, i: nat)
    requires OnlyTokens(s) && ValidUtf8(s) && (kind == JwtTokens() || kind == PrefixedTokens())
    ensures TokenAt(kind, s, i).Some? ==> SecretIn(s)(TokenAt(kind, s, i).value)
  {
    if TokenAt(kind, s, i).Some? {
      var r := TokenAt(kind, s, i).value;
      assert Tokens(kind, s)(i) == Some(r) && i < |s|;
      assert Found(Tokens(kind, s), |s|, r) && IsSecret(s, r);
      EverySecretFits(s, r);
      SecretStandsAlone(s, r);
    }
  }

  lemma NoTokensRemain(kind: TokenKind, s: seq<byte>, merged: seq<Range>)
    requires kind == JwtTokens() || kind == PrefixedTokens()
    requires OnlyTokens(s) && ValidUtf8(s) && SecretsOf(s, merged) && Ordered(s, merged)
    ensures !HasToken(kind, Replace(s, merged, REDACTED))
  {
    KindsAreWalled();
    KindsAreFirm();
    SecretsCoverAlone(s, merged);
    forall i ensures TokenAt(kind, s, i).Some? ==> SecretIn(s)(TokenAt(kind, s, i).value) {
      TokensAreSecret(kind, s, i);
    }
    NoTokenLeft(kind, s, merged, SecretIn(s));
  }

  lemma NoSeparatorRemains(s: seq<byte>, merged: seq<Range>)
    requires OnlyTokens(s) && Ordered(s, merged)
    ensures !HasSeparator(Replace(s, merged, REDACTED))
  {
    if HasSeparator(Replace(s, merged, REDACTED)) {
      SeparatorsSplit();
      var _, _ := FoundInPiece(s, merged, SeparatedText());
    }
  }

  lemma NoSchemeRemains(word: string, s: seq<byte>, merged: seq<Range>)
    requires SchemeWord(word) && Ordered(s, merged) && forall k :: 0 <= k < |s| ==> !SchemeAt(s, word, k)
    ensures !HasScheme(word, Replace(s, merged, REDACTED))
  {
    if HasScheme(word, Replace(s, merged, REDACTED)) {
      SchemesSplit(word);
      var e, b := FoundInPiece(s, merged, Schemed(word));
      var k :| 0 <= k < |s[e..b]| && SchemeAt(s[e..b], word, k);
      SchemeEmbeds(word, s, e, b, k);
    }
  }

  lemma SchemeEmbeds(word: string, s: seq<byte>, e: nat, b: nat, k: nat)
    requires e <= b <= |s| && SchemeAt(s[e..b], word, k)
    ensures SchemeAt(s, word, e + k)
  {
    var n, piece := |word|, s[e..b];
    var a, c := piece[k..k + n], s[e + k..e + k + n];
    assert forall i :: 0 <= i < n ==> a[i] == piece[k + i] == s[e + (k + i)] == c[i];
    assert a == c;
  }

  lemma StaysOnlyTokens(s: seq<byte>, merged: seq<Range>)
    requires OnlyTokens(s) && Ordered(s, merged)
    ensures OnlyTokens(Replace(s, merged, REDACTED))
  {
    NoSeparatorRemains(s, merged);
    NoSchemeRemains("bearer", s, merged);
    NoSchemeRemains("basic", s, merged);
  }

  /** A redacted text of this kind holds no secret. */
  lemma NothingLeft(s: seq<byte>, merged: seq<Range>, r: Range)
    requires OnlyTokens(s) && ValidUtf8(s) && SecretsOf(s, merged) && Ordered(s, merged)
    ensures !IsSecret(Replace(s, merged, REDACTED), r)
  {
    var t := Replace(s, merged, REDACTED);
    StaysOnlyTokens(s, merged);
    NoTokensRemain(JwtTokens(), s, merged);
    NoTokensRemain(PrefixedTokens(), s, merged);
    if IsSecret(t, r) {
      TokenSecrets(t, r);
      FoundIsToken(t, r);
    }
  }

  lemma FoundIsToken(s: seq<byte>, r: Range)
    ensures Found(Tokens(JwtTokens(), s), |s|, r) ==> HasToken(JwtTokens(), s)
    ensures Found(Tokens(PrefixedTokens(), s), |s|, r) ==> HasToken(PrefixedTokens(), s)
  {
    if i :| 0 <= i < |s| && Tokens(JwtTokens(), s)(i) == Some(r) {
      assert TokenAt(JwtTokens(), s, i).Some?;
    }
    if i :| 0 <= i < |s| && Tokens(PrefixedTokens(), s)(i) == Some(r) {
      assert TokenAt(PrefixedTokens(), s, i).Some?;
    }
  }

  lemma NoSecretsNoRanges(t: seq<byte>, merged: seq<Range>)
    requires SecretsOf(t, merged) && forall r :: !IsSecret(t, r)
    ensures merged == []
  {
    assert SecretsOf(t, []);
    SecretsAreUnique(t, merged, []);
  }

  /** For every valid text without separators and scheme words, redacting twice is redacting once. */
  method RedactAgain(s: seq<byte>) returns (once: seq<byte>, twice: seq<byte>)
    requires ValidUtf8(s) && OnlyTokens(s)
    ensures twice == once
  {
    var merged, again;
    once, merged := RedactText(s);
    forall r ensures !IsSecret(once, r) {
      NothingLeft(s, merged, r);
    }
    twice, again := RedactText(once);
    NoSecretsNoRanges(once, again);
  }
}
