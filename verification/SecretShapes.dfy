/** Byte classes, credential shapes and sensitive key names used by the redaction scanner. */
module SecretShapes {
  import opened Prelude

  /** The marker `[REDACTED]`. */
  const REDACTED: seq<byte> := [91, 82, 69, 68, 65, 67, 84, 69, 68, 93]

  const SENSITIVE_KEYS: seq<string> := [
    "apikey", "apitoken", "auth", "authorization", "authtoken", "clientsecret", "credential", "credentials",
    "databasepassword", "dbpassword", "idtoken", "password", "passphrase", "passwd", "privatekey",
    "proxyauthorization", "pwd", "refreshtoken", "secret", "secretaccesskey", "sessiontoken", "signingkey", "token"]

  const SENSITIVE_SUFFIXES: seq<string> := [
    "apikey", "apitoken", "authtoken", "clientsecret", "credential", "credentials", "idtoken", "password",
    "passphrase", "passwd", "privatekey", "refreshtoken", "secret", "secretaccesskey", "sessiontoken",
    "signingkey", "token"]

  const QUERY_ONLY_KEYS: seq<string> := ["key", "sig", "signature", "xamzcredential", "xamzsignature"]

  predicate IsByte(b: byte, c: char) {
    b as int == c as int
  }

  predicate IsLower(b: byte) {
    97 <= b <= 122
  }

  predicate IsUpper(b: byte) {
    65 <= b <= 90
  }

  predicate IsDigit(b: byte) {
    48 <= b <= 57
  }

  predicate IsAlphanumeric(b: byte) {
    IsLower(b) || IsUpper(b) || IsDigit(b)
  }

  function ToLower(b: byte): byte {
    if IsUpper(b) then b + 32 else b
  }

  predicate IsHorizontalSpace(b: byte) {
    IsByte(b, ' ') || IsByte(b, '\t')
  }

  predicate IsQuote(b: byte) {
    IsByte(b, '\'') || IsByte(b, '"')
  }

  predicate IsLineBreak(b: byte) {
    IsByte(b, '\r') || IsByte(b, '\n')
  }

  predicate IsKeyByte(b: byte) {
    IsAlphanumeric(b) || IsByte(b, '_') || IsByte(b, '-') || IsByte(b, '.')
  }

  predicate IsTokenByte(b: byte) {
    IsAlphanumeric(b) || IsByte(b, '_') || IsByte(b, '-')
  }

  predicate IsJwtByte(b: byte) {
    IsTokenByte(b) || IsByte(b, '.')
  }

  predicate IsBase64Byte(b: byte) {
    IsAlphanumeric(b) || IsByte(b, '+') || IsByte(b, '/') || IsByte(b, '=')
  }

  predicate IsValueDelimiter(b: byte) {
    || IsHorizontalSpace(b) || IsLineBreak(b) || b == 12
    || IsByte(b, ',') || IsByte(b, ';') || IsByte(b, '&') || IsByte(b, '#') || IsQuote(b)
    || IsByte(b, ')') || IsByte(b, ']') || IsByte(b, '}')
  }

  predicate HasPrefix(s: seq<byte>, p: string) {
    |p| <= |s| && forall i :: 0 <= i < |p| ==> IsByte(s[i], p[i])
  }

  /** Equality with a lower-case ASCII word, ignoring case. */
  predicate EqualsIgnoreCase(s: seq<byte>, word: string) {
    |s| == |word| && forall i :: 0 <= i < |word| ==> IsByte(ToLower(s[i]), word[i])
  }

  function NormalizeKey(key: seq<byte>): string {
    if key == [] then ""
    else (if IsAlphanumeric(key[0]) then [ToLower(key[0]) as char] else "") + NormalizeKey(key[1..])
  }

  predicate EndsWith(s: string, suffix: string) {
    |suffix| <= |s| && s[|s| - |suffix|..] == suffix
  }

  predicate IsSensitiveKey(key: string) {
    key in SENSITIVE_KEYS || exists suffix :: suffix in SENSITIVE_SUFFIXES && EndsWith(key, suffix)
  }

  predicate IsQueryOnlyKey(key: string) {
    key in QUERY_ONLY_KEYS
  }

  predicate All(s: seq<byte>, p: byte -> bool) {
    forall i :: 0 <= i < |s| ==> p(s[i])
  }

  predicate Any(s: seq<byte>, p: byte -> bool) {
    exists i :: 0 <= i < |s| && p(s[i])
  }

  predicate LooksLikeBearer(s: seq<byte>) {
    || |s| >= 16
    || (|s| >= 8 && Any(s, b => IsDigit(b) || IsByte(b, '-') || IsByte(b, '_') || IsByte(b, '.') || IsByte(b, '=')))
  }

  predicate LooksLikeBasic(s: seq<byte>) {
    && |s| >= 8 && |s| % 4 == 0 && All(s, IsBase64Byte)
    && (|| (Any(s, IsLower) && Any(s, IsUpper))
        || Any(s, b => IsDigit(b) || IsByte(b, '+') || IsByte(b, '/') || IsByte(b, '=')))
  }

  function SplitDots(s: seq<byte>): seq<seq<byte>> {
    if s == [] then [[]]
    else
      var rest := SplitDots(s[1..]);
      if IsByte(s[0], '.') || rest == [] then [[]] + rest else [[s[0]] + rest[0]] + rest[1..]
  }

  predicate IsJwtLike(s: seq<byte>) {
    var segments := SplitDots(s);
    && |segments| == 3 && HasPrefix(segments[0], "eyJ")
    && forall i :: 0 <= i < 3 ==> |segments[i]| >= 8 && All(segments[i], IsTokenByte)
  }

  predicate LooksLikePrefixed(s: seq<byte>) {
    || (HasPrefix(s, "sk-") && |s| >= 20)
    || ((HasPrefix(s, "sk_live_") || HasPrefix(s, "sk_test_") || HasPrefix(s, "rk_live_")) && |s| >= 24)
    || ((HasPrefix(s, "ghp_") || HasPrefix(s, "gho_") || HasPrefix(s, "ghu_") || HasPrefix(s, "ghs_")
         || HasPrefix(s, "github_pat_") || HasPrefix(s, "glpat-")) && |s| >= 20)
    || (HasPrefix(s, "AIza") && |s| >= 30)
    || (|s| >= 20 && HasPrefix(s, "xox") && IsByte(s[4], '-')
        && exists c :: c in "abprs" && IsByte(ToLower(s[3]), c))
    || ((HasPrefix(s, "AKIA") || HasPrefix(s, "ASIA")) && |s| == 20 && All(s, b => IsUpper(b) || IsDigit(b)))
  }
}
