/** The authentication payload: what the client prints and what the server parses. */
module AuthToken {
  import opened Common
  import opened BigEndian

  datatype AuthError = BadCredential | BadTimestamp | MissingUsername | MissingHash | BadUsername | BadHash

  datatype AuthClaim = AuthClaim(timestamp: nat, username: string, passwordHash: string)

  /** The Unicode control characters. */
  predicate IsControl(c: char) {
    c as int < 0x20 || 0x7F <= c as int <= 0x9F
  }

  predicate IsHexDigit(c: char) {
    '0' <= c <= '9' || 'a' <= c <= 'f' || 'A' <= c <= 'F'
  }

  /** `validate_credential_field`. */
  predicate ValidField(s: string) {
    s != "" && forall i :: 0 <= i < |s| ==> !IsControl(s[i])
  }

  predicate ValidHash(s: string) {
    |s| == 64 && forall i :: 0 <= i < |s| ==> IsHexDigit(s[i])
  }

  predicate Visible(c: char) {
    0x20 <= c as int < 0x7F || c as int > 0x9F
  }

  lemma FieldCharacters(s: string)
    ensures ValidField(s) <==> s != "" && forall c :: c in s ==> Visible(c)
  {
    if ValidField(s) {
      forall c | c in s ensures Visible(c) {
        var i :| 0 <= i < |s| && s[i] == c;
      }
    } else if s != "" {
      var i :| 0 <= i < |s| && IsControl(s[i]);
      assert s[i] in s && !Visible(s[i]);
    }
  }

  /** The codes of 0 to 9, A to F and a to f. */
  predicate HexCode(k: int) {
    48 <= k <= 57 || 65 <= k <= 70 || 97 <= k <= 102
  }

  lemma HashCharacters(s: string)
    ensures ValidHash(s) <==> |s| == 64 && forall i :: 0 <= i < |s| ==> HexCode(s[i] as int)
  {
    assert forall i :: 0 <= i < |s| ==> (IsHexDigit(s[i]) <==> HexCode(s[i] as int));
  }

  // ----- Decimal numbers -----

  function Digit(d: nat): (c: char)
    requires d < 10
    ensures '0' <= c <= '9' && c as int - '0' as int == d
  {
    ('0' as int + d) as char
  }

  function Decimal(n: nat): (s: string)
    ensures s != "" && forall i :: 0 <= i < |s| ==> '0' <= s[i] <= '9'
  {
    if n < 10 then [Digit(n)] else Decimal(n / 10) + [Digit(n % 10)]
  }

  function ParseDigits(s: string): Option<nat> {
    if s == "" then Some(0)
    else
      var c := s[|s| - 1];
      var rest := ParseDigits(s[..|s| - 1]);
      if rest.Some? && '0' <= c <= '9' then Some(rest.value * 10 + (c as int - '0' as int)) else None
  }

  /** `str::parse::<u64>`: an optional plus sign, then at least one digit, within range. */
  function ParseU64(s: string): Option<nat> {
    var digits := if |s| > 0 && s[0] == '+' then s[1..] else s;
    if digits == "" then None
    else match ParseDigits(digits)
         case Some(n) => if n <= U64_MAX then Some(n) else None
         case None => None
  }

  lemma {:induction false} ParseDecimal(n: nat)
    ensures ParseDigits(Decimal(n)) == Some(n)
  {
    if n >= 10 {
      ParseDecimal(n / 10);
      assert Decimal(n)[..|Decimal(n)| - 1] == Decimal(n / 10);
    } else {
      assert Decimal(n)[..0] == "";
    }
  }

  function Pow10(k: nat): (p: nat)
    ensures p > 0
  {
    if k == 0 then 1 else 10 * Pow10(k - 1)
  }

  lemma DivideByTens(n: nat, p: nat)
    requires p > 0
    ensures n / 10 / p == n / (10 * p)
  {
    var q, r := n / 10 / p, n / 10 % p;
    assert n == q * (10 * p) + (10 * r + n % 10);
    QuotientIs(n, 10 * p, q, 10 * r + n % 10);
  }

  /** The character `i` places from the end is the digit of weight 10 to the power `i`, and the first one is
      a zero only for zero itself. */
  lemma {:induction false} DecimalDigits(n: nat, i: nat)
    requires i < |Decimal(n)|
    ensures Decimal(n)[|Decimal(n)| - 1 - i] as int - '0' as int == n / Pow10(i) % 10
    ensures n < Pow10(|Decimal(n)|) && (n > 0 ==> Decimal(n)[0] != '0')
  {
    if n >= 10 {
      DecimalDigits(n / 10, if i == 0 then 0 else i - 1);
      if i > 0 {
        DivideByTens(n, Pow10(i - 1));
      }
    }
  }

  function Zeros(k: nat): (s: string)
    ensures |s| == k
  {
    seq(k, _ => '0')
  }

  lemma {:induction false} ParseZeros(k: nat)
    ensures ParseDigits(Zeros(k)) == Some(0)
  {
    if k > 0 {
      assert Zeros(k)[..k - 1] == Zeros(k - 1);
      ParseZeros(k - 1);
    }
  }

  lemma {:induction false} ParsePadded(k: nat, n: nat)
    ensures ParseDigits(Zeros(k) + Decimal(n)) == Some(n)
  {
    var s := Zeros(k) + Decimal(n);
    if n >= 10 {
      ParsePadded(k, n / 10);
      assert s[..|s| - 1] == Zeros(k) + Decimal(n / 10);
    } else {
      ParseZeros(k);
      assert s[..|s| - 1] == Zeros(k);
    }
  }

  /** One more character after padded digits. */
  lemma PaddedSnoc(t: string, c: char, k: nat, m: nat) returns (k': nat)
    requires t == Zeros(k) + Decimal(m) && '0' <= c <= '9'
    ensures t + [c] == Zeros(k') + Decimal(10 * m + (c as int - '0' as int))
  {
    var n := 10 * m + (c as int - '0' as int);
    if m > 0 {
      k' := k;
      assert Decimal(n) == Decimal(m) + [c];
    } else {
      k' := k + 1;
      assert Decimal(n) == [c];
      assert t == Zeros(k');
    }
  }

  lemma {:induction false} ParsedIsPadded(s: string, n: nat) returns (k: nat)
    requires s != "" && ParseDigits(s) == Some(n)
    ensures s == Zeros(k) + Decimal(n)
  {
    var t, c := s[..|s| - 1], s[|s| - 1];
    assert s == t + [c];
    if t == "" {
      k := 0;
      assert Decimal(n) == [c];
    } else {
      k := ParsedIsPadded(t, ParseDigits(t).value);
      k := PaddedSnoc(t, c, k, ParseDigits(t).value);
    }
  }

  /** An optional plus sign, `k` zeros, and the decimal digits of `n`. */
  predicate Spells(s: string, k: nat, n: nat) {
    s == Zeros(k) + Decimal(n) || s == "+" + (Zeros(k) + Decimal(n))
  }

  lemma DigitsAreRead(s: string, digits: string, n: nat)
    requires digits != "" && digits[0] != '+' && ParseDigits(digits) == Some(n) && n <= U64_MAX
    requires s == digits || s == "+" + digits
    ensures ParseU64(s) == Some(n)
  {
    if s != digits {
      assert s[0] == '+' && s[1..] == digits;
    }
  }

  lemma SpelledIsRead(s: string, k: nat, n: nat)
    requires n <= U64_MAX && Spells(s, k, n)
    ensures ParseU64(s) == Some(n)
  {
    var digits := Zeros(k) + Decimal(n);
    ParsePadded(k, n);
    assert digits[0] == if k > 0 then '0' else Decimal(n)[0];
    DigitsAreRead(s, digits, n);
  }

  lemma ReadIsSpelled(s: string, n: nat) returns (k: nat)
    requires ParseU64(s) == Some(n)
    ensures n <= U64_MAX && Spells(s, k, n)
  {
    if |s| > 0 && s[0] == '+' {
      k := ParsedIsPadded(s[1..], n);
      assert s == "+" + s[1..];
    } else {
      k := ParsedIsPadded(s, n);
    }
  }

  /** The texts read as the number `n`: an optional plus sign, any zeros, and its decimal digits. */
  lemma TimestampSpellings(s: string, n: nat)
    ensures ParseU64(s) == Some(n) <==> n < 0x1_0000_0000_0000_0000 && exists k: nat :: Spells(s, k, n)
  {
    if ParseU64(s) == Some(n) {
      var _ := ReadIsSpelled(s, n);
    }
    if n <= U64_MAX {
      if k: nat :| Spells(s, k, n) {
        SpelledIsRead(s, k, n);
      }
    }
  }

  lemma {:induction false} ParsedHasNoNewline(s: string)
    requires ParseDigits(s).Some?
    ensures forall i :: 0 <= i < |s| ==> '0' <= s[i] <= '9'
  {
    if s != "" {
      ParsedHasNoNewline(s[..|s| - 1]);
    }
  }

  // ----- Splitting -----

  /** The index of the first newline, or the length. */
  function Newline(s: string): (k: nat)
    ensures k <= |s| && (k < |s| ==> s[k] == '\n') && forall i :: 0 <= i < k ==> s[i] != '\n'
  {
    if s == "" || s[0] == '\n' then 0 else 1 + Newline(s[1..])
  }

  /** `splitn(n, '\n')`. */
  function SplitN(s: string, n: nat): (parts: seq<string>)
    requires n > 0
    ensures 1 <= |parts| <= n
  {
    var k := Newline(s);
    if n == 1 || k == |s| then [s] else [s[..k]] + SplitN(s[k + 1..], n - 1)
  }

  /** The first line of `a`, when `a` has no newline of its own. */
  lemma NewlineAfter(a: string, rest: string)
    requires forall i :: 0 <= i < |a| ==> a[i] != '\n'
    ensures Newline(a + "\n" + rest) == |a|
    ensures (a + "\n" + rest)[..|a|] == a && (a + "\n" + rest)[|a| + 1..] == rest
  {
    var s := a + "\n" + rest;
    assert forall i :: 0 <= i < |a| ==> s[i] == a[i];
    assert s[|a|] == '\n';
  }

  // ----- The payload -----

  function Payload(ts: string, username: string, hash: string): string {
    ts + "\n" + (username + "\n" + hash)
  }

  /** What `build_authtoken` encrypts; `sha` is the hex digest of a password. */
  function BuildPayload(ts: nat, username: string, password: string, sha: string -> string): Result<string, AuthError> {
    if !ValidField(username) || !ValidField(password) then Err(BadCredential)
    else Ok(Payload(Decimal(ts), username, sha(password)))
  }

  /** What `decode_authtoken_bytes` does with the decrypted text. */
  function DecodePayload(s: string): Result<AuthClaim, AuthError> {
    var parts := SplitN(s, 3);
    var ts := ParseU64(parts[0]);
    if ts.None? then Err(BadTimestamp)
    else if |parts| < 2 then Err(MissingUsername)
    else if |parts| < 3 then Err(MissingHash)
    else if !ValidField(parts[1]) then Err(BadUsername)
    else if !ValidHash(parts[2]) then Err(BadHash)
    else Ok(AuthClaim(ts.value, parts[1], parts[2]))
  }

  lemma PayloadSplits(ts: string, username: string, hash: string)
    requires forall i :: 0 <= i < |ts| ==> ts[i] != '\n'
    requires forall i :: 0 <= i < |username| ==> username[i] != '\n'
    ensures SplitN(Payload(ts, username, hash), 3) == [ts, username, hash]
  {
    NewlineAfter(ts, username + "\n" + hash);
    NewlineAfter(username, hash);
    assert SplitN(hash, 1) == [hash];
    assert SplitN(username + "\n" + hash, 2) == [username] + [hash];
  }

  lemma FieldHasNoNewline(s: string)
    requires ValidField(s)
    ensures forall i :: 0 <= i < |s| ==> s[i] != '\n'
  {
    assert IsControl('\n');
  }

  lemma PayloadIsRead(ts: nat, username: string, hash: string)
    requires ts <= U64_MAX && ValidField(username) && ValidHash(hash)
    ensures DecodePayload(Payload(Decimal(ts), username, hash)) == Ok(AuthClaim(ts, username, hash))
  {
    ParseDecimal(ts);
    FieldHasNoNewline(username);
    PayloadSplits(Decimal(ts), username, hash);
  }

  lemma PayloadText(ts: string, username: string, hash: string)
    ensures Payload(ts, username, hash) == ts + "\n" + username + "\n" + hash
  {}

  /** Whenever the client agrees to build a token, the server reads the same three fields back. */
  lemma PayloadRoundTrip(ts: nat, username: string, password: string, sha: string -> string)
    requires ts <= U64_MAX && ValidHash(sha(password))
    ensures BuildPayload(ts, username, password, sha).Ok? <==>
            username != "" && password != ""
            && (forall c :: c in username ==> Visible(c)) && (forall c :: c in password ==> Visible(c))
    ensures BuildPayload(ts, username, password, sha).Ok? ==>
              var payload := BuildPayload(ts, username, password, sha).value;
              && payload == Decimal(ts) + "\n" + username + "\n" + sha(password)
              && DecodePayload(payload) == Ok(AuthClaim(ts, username, sha(password)))
  {
    FieldCharacters(username);
    FieldCharacters(password);
    PayloadText(Decimal(ts), username, sha(password));
    if ValidField(username) {
      PayloadIsRead(ts, username, sha(password));
    }
  }

  predicate NoNewline(s: string) {
    forall i :: 0 <= i < |s| ==> s[i] != '\n'
  }

  lemma SplitStep(s: string, n: nat) returns (line: string, rest: string)
    requires n > 1 && |SplitN(s, n)| > 1
    ensures NoNewline(line) && s == line + "\n" + rest
    ensures SplitN(s, n) == [line] + SplitN(rest, n - 1)
  {
    line, rest := s[..Newline(s)], s[Newline(s) + 1..];
  }

  /** The first two of three parts have no newline, and the parts put together are the text. */
  lemma SplitParts(s: string)
    requires |SplitN(s, 3)| == 3
    ensures var p := SplitN(s, 3);
            s == Payload(p[0], p[1], p[2]) && NoNewline(p[0]) && NoNewline(p[1])
  {
    var line, rest := SplitStep(s, 3);
    var line', rest' := SplitStep(rest, 2);
    assert SplitN(rest', 1) == [rest'];
    assert SplitN(s, 3) == [line, line', rest'];
  }

  /** The server accepts a text exactly when it is a payload with a readable timestamp and valid
      fields; so a claim's payload is fixed but for the spelling of its timestamp. */
  lemma DecodesIff(s: string, claim: AuthClaim)
    ensures DecodePayload(s) == Ok(claim) <==>
            claim.username != "" && (forall c :: c in claim.username ==> Visible(c))
            && |claim.passwordHash| == 64
            && (forall i :: 0 <= i < |claim.passwordHash| ==> HexCode(claim.passwordHash[i] as int))
            && exists ts :: ParseU64(ts) == Some(claim.timestamp) && s == Payload(ts, claim.username, claim.passwordHash)
  {
    FieldCharacters(claim.username);
    HashCharacters(claim.passwordHash);
    if DecodePayload(s) == Ok(claim) {
      SplitParts(s);
    }
    if ValidField(claim.username) && ValidHash(claim.passwordHash) {
      forall ts | ParseU64(ts) == Some(claim.timestamp) && s == Payload(ts, claim.username, claim.passwordHash)
        ensures DecodePayload(s) == Ok(claim)
      {
        var digits := if |ts| > 0 && ts[0] == '+' then ts[1..] else ts;
        ParsedHasNoNewline(digits);
        assert forall i :: 0 <= i < |ts| ==> ts[i] != '\n';
        PayloadSplits(ts, claim.username, claim.passwordHash);
      }
    }
  }

  /** The error for a text of one, two or three parts is the first part that is missing or wrong. */
  lemma RefusedBecause(ts: string, username: string, hash: string)
    requires NoNewline(ts) && NoNewline(username)
    ensures DecodePayload(ts) == Err(if ParseU64(ts).None? then BadTimestamp else MissingUsername)
    ensures DecodePayload(ts + "\n" + username) == Err(if ParseU64(ts).None? then BadTimestamp else MissingHash)
    ensures DecodePayload(Payload(ts, username, hash)).Err? ==>
              DecodePayload(Payload(ts, username, hash)).error ==
              if ParseU64(ts).None? then BadTimestamp else if !ValidField(username) then BadUsername else BadHash
  {
    assert SplitN(ts, 3) == [ts];
    NewlineAfter(ts, username);
    assert SplitN(username, 2) == [username];
    PayloadSplits(ts, username, hash);
  }
}
