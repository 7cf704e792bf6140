/**
  scripts/init-secrets.js: fresh credentials for the `.env` file.

  The generators turn random bytes into the shapes the script writes; the
  random bytes, the bcrypt hash and the file's previous contents are
  parameters. The rewrite keeps every line in place, replaces each line that
  starts with one of the three keys and appends the keys no line had, in
  the order username, password, secret.
*/
module Secrets {

  import opened Wrappers
  import opened Text

  newtype Byte = x: int | 0 <= x < 256

  // ---------------------------------------------------------------------------
  // Encodings of `Buffer.toString`

  /** The lower-case hexadecimal digit of a value below 16. */
  function HexDigit(v: int): (c: CodeUnit)
    requires 0 <= v < 16
  {
    if v < 10 then (0x30 + v) as CodeUnit else (0x57 + v) as CodeUnit
  }

  predicate IsHexDigit(c: CodeUnit) {
    0x30 <= c <= 0x39 || 0x61 <= c <= 0x66
  }

  /** The value of a lower-case hexadecimal digit. */
  function HexValue(c: CodeUnit): int
    requires IsHexDigit(c)
  {
    if c <= 0x39 then c as int - 0x30 else c as int - 0x57
  }

  /** `toString("hex")`: two lower-case digits per byte, high nibble first. */
  function Hex(bytes: seq<Byte>): (r: Str)
    ensures |r| == 2 * |bytes|
    ensures forall k :: 0 <= k < |r| ==> IsHexDigit(r[k])
  {
    if bytes == [] then []
    else [HexDigit(bytes[0] as int / 16), HexDigit(bytes[0] as int % 16)] + Hex(bytes[1..])
  }

  /** Reading hexadecimal text back into bytes. */
  function Unhex(s: Str): seq<Byte>
    requires |s| % 2 == 0 && forall k :: 0 <= k < |s| ==> IsHexDigit(s[k])
  {
    if s == [] then []
    else [(16 * HexValue(s[0]) + HexValue(s[1])) as Byte] + Unhex(s[2..])
  }

  lemma {:induction false} HexRoundTrip(bytes: seq<Byte>)
    ensures Unhex(Hex(bytes)) == bytes
  {
    if bytes != [] {
      var s := Hex(bytes);
      assert s[2..] == Hex(bytes[1..]);
      HexRoundTrip(bytes[1..]);
    }
  }

  const Padding: CodeUnit := 0x3D
  const Plus: CodeUnit := 0x2B
  const Slash: CodeUnit := 0x2F

  /** The character of a six-bit value in the standard base64 alphabet. */
  function Base64Digit(v: int): (c: CodeUnit)
    requires 0 <= v < 64
    ensures IsAlphanumeric(c) || c == Plus || c == Slash
    ensures c != Padding
    ensures c == Plus <==> v == 62
    ensures c == Slash <==> v == 63
  {
    if v < 26 then (0x41 + v) as CodeUnit
    else if v < 52 then (0x61 + v - 26) as CodeUnit
    else if v < 62 then (0x30 + v - 52) as CodeUnit
    else if v == 62 then Plus
    else Slash
  }

  predicate IsAlphanumeric(c: CodeUnit) {
    0x30 <= c <= 0x39 || 0x41 <= c <= 0x5A || 0x61 <= c <= 0x7A
  }

  /** `toString("base64")`: four characters per three bytes, `=`-padded. */
  function Base64(bytes: seq<Byte>): (r: Str)
    ensures |r| == 4 * ((|bytes| + 2) / 3)
    ensures forall k :: 0 <= k < |r| ==> IsAlphanumeric(r[k]) || r[k] in {Plus, Slash, Padding}
  {
    if bytes == [] then []
    else
      var b0 := bytes[0] as int;
      if |bytes| == 1 then
        [Base64Digit(b0 / 4), Base64Digit(b0 % 4 * 16), Padding, Padding]
      else
        var b1 := bytes[1] as int;
        if |bytes| == 2 then
          [Base64Digit(b0 / 4), Base64Digit(b0 % 4 * 16 + b1 / 16), Base64Digit(b1 % 16 * 4), Padding]
        else
          var b2 := bytes[2] as int;
          [Base64Digit(b0 / 4), Base64Digit(b0 % 4 * 16 + b1 / 16), Base64Digit(b1 % 16 * 4 + b2 / 64),
           Base64Digit(b2 % 64)] + Base64(bytes[3..])
  }

  /** The six-bit value of a base64 character; characters outside the alphabet count as 0. */
  function Base64Value(c: CodeUnit): (v: int)
    ensures 0 <= v < 64
  {
    if 0x41 <= c <= 0x5A then c as int - 0x41
    else if 0x61 <= c <= 0x7A then c as int - 0x61 + 26
    else if 0x30 <= c <= 0x39 then c as int - 0x30 + 52
    else if c == Plus then 62
    else if c == Slash then 63
    else 0
  }

  /** One group of four characters: three bytes, or fewer when `=` pads the group. */
  function DecodeGroup(c0: CodeUnit, c1: CodeUnit, c2: CodeUnit, c3: CodeUnit): seq<Byte> {
    var v0, v1, v2, v3 := Base64Value(c0), Base64Value(c1), Base64Value(c2), Base64Value(c3);
    var b0 := (v0 * 4 + v1 / 16) as Byte;
    var b1 := (v1 % 16 * 16 + v2 / 4) as Byte;
    var b2 := (v2 % 4 * 64 + v3) as Byte;
    if c2 == Padding then [b0]
    else if c3 == Padding then [b0, b1]
    else [b0, b1, b2]
  }

  /** Decoding four characters at a time; a padded group or a short tail ends the data. */
  function Unbase64(s: Str): seq<Byte> {
    if |s| < 4 then []
    else
      var group := DecodeGroup(s[0], s[1], s[2], s[3]);
      if s[2] == Padding || s[3] == Padding then group else group + Unbase64(s[4..])
  }

  lemma Base64DigitValue(v: int)
    requires 0 <= v < 64
    ensures Base64Value(Base64Digit(v)) == v
  {
  }

  /** Regrouping three bytes into four six-bit values and back. */
  lemma GroupValues(b0: int, b1: int, b2: int)
    requires 0 <= b0 < 256 && 0 <= b1 < 256 && 0 <= b2 < 256
    ensures var v1, v2 := b0 % 4 * 16 + b1 / 16, b1 % 16 * 4 + b2 / 64;
      && b0 / 4 * 4 + v1 / 16 == b0
      && v1 % 16 * 16 + v2 / 4 == b1
      && v2 % 4 * 64 + b2 % 64 == b2
  {
    var v1, v2 := b0 % 4 * 16 + b1 / 16, b1 % 16 * 4 + b2 / 64;
    assert v1 / 16 == b0 % 4 && v1 % 16 == b1 / 16;
    assert v2 / 4 == b1 % 16 && v2 % 4 == b2 / 64;
  }

  /** The characters `Base64` writes for up to three bytes decode to those bytes. */
  lemma GroupDecodes(b0: Byte, b1: Byte, b2: Byte, n: nat)
    requires 1 <= n <= 3 && (n < 3 ==> b2 == 0) && (n < 2 ==> b1 == 0)
    ensures var v0, v1, v2, v3 := b0 as int / 4, b0 as int % 4 * 16 + b1 as int / 16,
      b1 as int % 16 * 4 + b2 as int / 64, b2 as int % 64;
      DecodeGroup(Base64Digit(v0), Base64Digit(v1),
                  if n >= 2 then Base64Digit(v2) else Padding,
                  if n == 3 then Base64Digit(v3) else Padding) ==
        if n == 1 then [b0] else if n == 2 then [b0, b1] else [b0, b1, b2]
  {
    var v0, v1, v2, v3 := b0 as int / 4, b0 as int % 4 * 16 + b1 as int / 16,
      b1 as int % 16 * 4 + b2 as int / 64, b2 as int % 64;
    GroupValues(b0 as int, b1 as int, b2 as int);
    Base64DigitValue(v0);
    Base64DigitValue(v1);
    Base64DigitValue(v2);
    Base64DigitValue(v3);
  }

  /** Decoding the base64 text gives the bytes back. */
  lemma {:induction false} Base64RoundTrip(bytes: seq<Byte>)
    ensures Unbase64(Base64(bytes)) == bytes
  {
    if |bytes| == 1 || |bytes| == 2 {
      PaddedGroupRoundTrip(bytes);
    } else if bytes != [] {
      FullGroupStep(bytes);
      Base64RoundTrip(bytes[3..]);
      assert bytes == bytes[..3] + bytes[3..];
    }
  }

  /** One or two bytes: a single padded group that decodes back to them. */
  lemma PaddedGroupRoundTrip(bytes: seq<Byte>)
    requires |bytes| == 1 || |bytes| == 2
    ensures Unbase64(Base64(bytes)) == bytes
  {
    Base64Head(bytes);
    if |bytes| == 1 {
      OneByteDecodes(bytes, Base64(bytes));
    } else {
      TwoBytesDecode(bytes, Base64(bytes));
    }
  }

  lemma OneByteDecodes(bytes: seq<Byte>, s: Str)
    requires |bytes| == 1 && |s| >= 4
    requires s[0] == Base64Digit(bytes[0] as int / 4) && s[1] == Base64Digit(bytes[0] as int % 4 * 16)
    requires s[2] == Padding && s[3] == Padding
    ensures Unbase64(s) == bytes
  {
    assert bytes == [bytes[0]];
    DecodeWritten(s, bytes[0], 0, 0, 1);
  }

  lemma TwoBytesDecode(bytes: seq<Byte>, s: Str)
    requires |bytes| == 2 && |s| >= 4
    requires s[0] == Base64Digit(bytes[0] as int / 4)
    requires s[1] == Base64Digit(bytes[0] as int % 4 * 16 + bytes[1] as int / 16)
    requires s[2] == Base64Digit(bytes[1] as int % 16 * 4) && s[3] == Padding
    ensures Unbase64(s) == bytes
  {
    assert bytes == [bytes[0], bytes[1]];
    DecodeWritten(s, bytes[0], bytes[1], 0, 2);
  }

  /** Three bytes or more: the first group decodes to the first three bytes, then decoding goes on. */
  lemma FullGroupStep(bytes: seq<Byte>)
    requires |bytes| >= 3
    ensures Unbase64(Base64(bytes)) == bytes[..3] + Unbase64(Base64(bytes[3..]))
  {
    Base64Head(bytes);
    FullGroupDecodes(bytes, Base64(bytes), Base64(bytes[3..]));
  }

  /** A text that starts with the group `Base64` writes for three bytes decodes to them, then to its rest. */
  lemma FullGroupDecodes(bytes: seq<Byte>, s: Str, rest: Str)
    requires |bytes| >= 3 && |s| >= 4 && s[4..] == rest
    requires s[0] == Base64Digit(bytes[0] as int / 4)
    requires s[1] == Base64Digit(bytes[0] as int % 4 * 16 + bytes[1] as int / 16)
    requires s[2] == Base64Digit(bytes[1] as int % 16 * 4 + bytes[2] as int / 64)
    requires s[3] == Base64Digit(bytes[2] as int % 64)
    ensures Unbase64(s) == bytes[..3] + Unbase64(rest)
  {
    assert bytes[..3] == [bytes[0], bytes[1], bytes[2]];
    DecodeWritten(s, bytes[0], bytes[1], bytes[2], 3);
  }

  /** A text that starts with the group `Base64` writes for up to three bytes decodes to those bytes first. */
  lemma DecodeWritten(s: Str, b0: Byte, b1: Byte, b2: Byte, n: nat)
    requires 1 <= n <= 3 && (n < 3 ==> b2 == 0) && (n < 2 ==> b1 == 0)
    requires |s| >= 4
    requires s[0] == Base64Digit(b0 as int / 4)
    requires s[1] == Base64Digit(b0 as int % 4 * 16 + b1 as int / 16)
    requires s[2] == if n >= 2 then Base64Digit(b1 as int % 16 * 4 + b2 as int / 64) else Padding
    requires s[3] == if n == 3 then Base64Digit(b2 as int % 64) else Padding
    ensures Unbase64(s) == if n == 1 then [b0] else if n == 2 then [b0, b1] else [b0, b1, b2] + Unbase64(s[4..])
  {
    GroupDecodes(b0, b1, b2, n);
  }

  /** The four characters `Base64` writes first, and where the rest of its text comes from. */
  lemma Base64Head(bytes: seq<Byte>)
    requires bytes != []
    ensures var s := Base64(bytes);
      var n := if |bytes| < 3 then |bytes| else 3;
      var b0 := bytes[0] as int;
      var b1 := if n >= 2 then bytes[1] as int else 0;
      var b2 := if n == 3 then bytes[2] as int else 0;
      && |s| >= 4
      && s[0] == Base64Digit(b0 / 4)
      && s[1] == Base64Digit(b0 % 4 * 16 + b1 / 16)
      && s[2] == (if n >= 2 then Base64Digit(b1 % 16 * 4 + b2 / 64) else Padding)
      && s[3] == (if n == 3 then Base64Digit(b2 % 64) else Padding)
      && (n == 3 ==> s[4..] == Base64(bytes[3..]))
  {
  }

  predicate IsSymbol(c: CodeUnit) {
    c in {Plus, Slash, Padding}
  }

  /** `.replace(/[+/=]/g, "")`. */
  function DropSymbols(s: Str): (r: Str)
    ensures |r| <= |s|
    ensures forall c :: c in r <==> c in s && c !in {Plus, Slash, Padding}
  {
    if s == [] then []
    else
      var rest := DropSymbols(s[1..]);
      assert forall c :: c in s <==> c == s[0] || c in s[1..];
      if IsSymbol(s[0]) then rest else [s[0]] + rest
  }

  /**
    The removal works character by character and in order: a symbol
    disappears, any other character stays where it was, and the result of
    a concatenation is the concatenation of the results.
  */
  lemma {:induction false} DropSymbolsInOrder(a: Str, b: Str)
    ensures DropSymbols(a + b) == DropSymbols(a) + DropSymbols(b)
    ensures forall c :: DropSymbols([c]) == if IsSymbol(c) then [] else [c]
  {
    forall c ensures DropSymbols([c]) == if IsSymbol(c) then [] else [c] {
      assert [c][1..] == [];
    }
    if a != [] {
      assert (a + b)[1..] == a[1..] + b;
      DropSymbolsInOrder(a[1..], b);
    } else {
      assert a + b == b;
    }
  }

  // ---------------------------------------------------------------------------
  // The generators

  const UserPrefix: Str := Lit("user_")

  /** `generatePassword(length)` given the `length` random bytes. */
  function GeneratePassword(bytes: seq<Byte>, length: nat): (r: Str)
    ensures |r| <= length
    ensures forall k :: 0 <= k < |r| ==> IsAlphanumeric(r[k])
  {
    var symbolsDropped := DropSymbols(Base64(bytes));
    var r := if |symbolsDropped| <= length then symbolsDropped else symbolsDropped[..length];
    assert forall k :: 0 <= k < |r| ==> r[k] in symbolsDropped;
    r
  }

  /** `generateUsername()` given its 4 random bytes. */
  function GenerateUsername(bytes: seq<Byte>): Str {
    UserPrefix + Hex(bytes)
  }

  /** `generateSecret()` given its 64 random bytes. */
  function GenerateSecret(bytes: seq<Byte>): Str {
    Hex(bytes)
  }

  lemma UsernameShape(bytes: seq<Byte>)
    requires |bytes| == 4
    ensures var u := GenerateUsername(bytes);
      |u| == 13 && u[..5] == UserPrefix && (forall k :: 5 <= k < 13 ==> IsHexDigit(u[k]))
      && Unhex(u[5..]) == bytes
  {
    var u := GenerateUsername(bytes);
    assert u[5..] == Hex(bytes);
    HexRoundTrip(bytes);
  }

  lemma SecretShape(bytes: seq<Byte>)
    requires |bytes| == 64
    ensures var s := GenerateSecret(bytes);
      |s| == 128 && (forall k :: 0 <= k < 128 ==> IsHexDigit(s[k])) && Unhex(s) == bytes
  {
    HexRoundTrip(bytes);
  }

  // ---------------------------------------------------------------------------
  // The `.env` rewrite

  const UsernameKey: Str := Lit("AUTH_USERNAME=")
  const PasswordKey: Str := Lit("AUTH_PASSWORD=")
  const SecretKey: Str := Lit("JWT_SECRET=")
  const Newline: Str := [NL]

  /** The three values written: the username, the bcrypt hash of the password and the JWT secret. */
  datatype Values = Values(username: Str, passwordHash: Str, jwtSecret: Str)

  /**
    The script's values from 4, 16 and 64 random bytes, with `hash` standing
    for `bcrypt.hashSync(_, 12)`.
  */
  function MakeValues(userBytes: seq<Byte>, passwordBytes: seq<Byte>, secretBytes: seq<Byte>, hash: Str -> Str): Values
    requires |userBytes| == 4 && |passwordBytes| == 16 && |secretBytes| == 64
  {
    Values(GenerateUsername(userBytes), hash(GeneratePassword(passwordBytes, 16)), GenerateSecret(secretBytes))
  }

  /** The `map` callback: a line starting with a key is replaced by the key and its new value. */
  function RewriteLine(line: Str, v: Values): Str {
    if StartsWith(line, UsernameKey) then UsernameKey + v.username
    else if StartsWith(line, PasswordKey) then PasswordKey + v.passwordHash
    else if StartsWith(line, SecretKey) then SecretKey + v.jwtSecret
    else line
  }

  function Rewritten(lines: seq<Str>, v: Values): (r: seq<Str>)
    ensures |r| == |lines|
  {
    seq(|lines|, k requires 0 <= k < |lines| => RewriteLine(lines[k], v))
  }

  /** Some line among the first `n` starts with `key`: the flag the `map` callback sets. */
  predicate HasKeyBefore(lines: seq<Str>, key: Str, n: int) {
    exists k :: 0 <= k < n && k < |lines| && StartsWith(lines[k], key)
  }

  predicate HasKey(lines: seq<Str>, key: Str) {
    HasKeyBefore(lines, key, |lines|)
  }

  /** The lines the three `push` calls append. */
  function Appended(lines: seq<Str>, v: Values): seq<Str> {
    (if HasKey(lines, UsernameKey) then [] else [UsernameKey + v.username])
    + (if HasKey(lines, PasswordKey) then [] else [PasswordKey + v.passwordHash])
    + (if HasKey(lines, SecretKey) then [] else [SecretKey + v.jwtSecret])
  }

  function NewLines(lines: seq<Str>, v: Values): seq<Str> {
    Rewritten(lines, v) + Appended(lines, v)
  }

  /** The text written back to `.env`. */
  function NewEnv(env: Str, v: Values): Str {
    Join(NewLines(Split(env, Newline), v), Newline)
  }

  /** `readFileSync`, with a missing file read as the empty text. */
  function EnvText(file: Option<Str>): Str {
    match file
    case None => []
    case Some(text) => text
  }

  /** The rewrite as the script performs it: the `map` pass, then the appends. */
  method RewriteEnv(env: Str, v: Values) returns (written: Str)
    ensures written == NewEnv(env, v)
  {
    var lines := Split(env, Newline);
    var newEnv, updatedUsername, updatedAuth, updatedJwt := RewriteLines(lines, v);
    if !updatedUsername {
      newEnv := newEnv + [UsernameKey + v.username];
    }
    if !updatedAuth {
      newEnv := newEnv + [PasswordKey + v.passwordHash];
    }
    if !updatedJwt {
      newEnv := newEnv + [SecretKey + v.jwtSecret];
    }
    assert newEnv == Rewritten(lines, v) + Appended(lines, v);
    written := Join(newEnv, Newline);
  }

  /** The `map` pass: each line rewritten, and a flag per key that some line started with it. */
  method RewriteLines(lines: seq<Str>, v: Values)
    returns (newEnv: seq<Str>, updatedUsername: bool, updatedAuth: bool, updatedJwt: bool)
    ensures newEnv == Rewritten(lines, v)
    ensures updatedUsername == HasKey(lines, UsernameKey)
    ensures updatedAuth == HasKey(lines, PasswordKey)
    ensures updatedJwt == HasKey(lines, SecretKey)
  {
    newEnv := [];
    updatedUsername, updatedAuth, updatedJwt := false, false, false;
    for i := 0 to |lines|
      invariant |newEnv| == i && forall k :: 0 <= k < i ==> newEnv[k] == RewriteLine(lines[k], v)
      invariant updatedUsername == HasKeyBefore(lines, UsernameKey, i)
      invariant updatedAuth == HasKeyBefore(lines, PasswordKey, i)
      invariant updatedJwt == HasKeyBefore(lines, SecretKey, i)
    {
      var line := lines[i];
      KeysExclusive(line);
      HasKeyStep(lines, UsernameKey, i);
      HasKeyStep(lines, PasswordKey, i);
      HasKeyStep(lines, SecretKey, i);
      if StartsWith(line, UsernameKey) {
        updatedUsername := true;
        newEnv := newEnv + [UsernameKey + v.username];
      } else if StartsWith(line, PasswordKey) {
        updatedAuth := true;
        newEnv := newEnv + [PasswordKey + v.passwordHash];
      } else if StartsWith(line, SecretKey) {
        updatedJwt := true;
        newEnv := newEnv + [SecretKey + v.jwtSecret];
      } else {
        newEnv := newEnv + [line];
      }
    }
  }

  lemma HasKeyStep(lines: seq<Str>, key: Str, i: nat)
    requires i < |lines|
    ensures HasKeyBefore(lines, key, i + 1) <==> HasKeyBefore(lines, key, i) || StartsWith(lines[i], key)
  {
    if HasKeyBefore(lines, key, i + 1) && !StartsWith(lines[i], key) {
      var k :| 0 <= k < i + 1 && k < |lines| && StartsWith(lines[k], key);
      assert k < i;
    }
  }

  // ---------------------------------------------------------------------------
  // Properties

  /** No line starts with two of the keys. */
  lemma KeysExclusive(line: Str)
    ensures !(StartsWith(line, UsernameKey) && StartsWith(line, PasswordKey))
    ensures !(StartsWith(line, UsernameKey) && StartsWith(line, SecretKey))
    ensures !(StartsWith(line, PasswordKey) && StartsWith(line, SecretKey))
  {
    assert UsernameKey[5] != PasswordKey[5];
    assert UsernameKey[0] != SecretKey[0] && PasswordKey[0] == UsernameKey[0];
    if StartsWith(line, UsernameKey) {
      assert line[5] == UsernameKey[5] && line[0] == UsernameKey[0];
    }
    if StartsWith(line, PasswordKey) {
      assert line[0] == PasswordKey[0];
    }
  }

  /** Lines without a key stay as they were, in place; lines with one carry the new value. */
  lemma LinesInPlace(lines: seq<Str>, v: Values, i: nat)
    requires i < |lines|
    ensures var out := NewLines(lines, v);
      && (StartsWith(lines[i], UsernameKey) ==> out[i] == UsernameKey + v.username)
      && (StartsWith(lines[i], PasswordKey) ==> out[i] == PasswordKey + v.passwordHash)
      && (StartsWith(lines[i], SecretKey) ==> out[i] == SecretKey + v.jwtSecret)
      && (!StartsWith(lines[i], UsernameKey) && !StartsWith(lines[i], PasswordKey) && !StartsWith(lines[i], SecretKey)
          ==> out[i] == lines[i])
  {
    KeysExclusive(lines[i]);
  }

  predicate SingleLine(s: Str) {
    NL !in s
  }

  predicate SingleLineValues(v: Values) {
    SingleLine(v.username) && SingleLine(v.passwordHash) && SingleLine(v.jwtSecret)
  }

  /** Hexadecimal text has no line feed. */
  lemma HexSingleLine(bytes: seq<Byte>)
    ensures SingleLine(Hex(bytes))
  {
    var h := Hex(bytes);
    forall k | 0 <= k < |h| ensures h[k] != NL {
      assert IsHexDigit(h[k]);
    }
  }

  /**
    The generated username and secret are single lines; so are the values,
    provided the bcrypt hash is one.
  */
  lemma GeneratedValuesSingleLine(userBytes: seq<Byte>, passwordBytes: seq<Byte>, secretBytes: seq<Byte>, hash: Str -> Str)
    requires |userBytes| == 4 && |passwordBytes| == 16 && |secretBytes| == 64
    requires SingleLine(hash(GeneratePassword(passwordBytes, 16)))
    ensures SingleLineValues(MakeValues(userBytes, passwordBytes, secretBytes, hash))
  {
    HexSingleLine(userBytes);
    HexSingleLine(secretBytes);
    var u := GenerateUsername(userBytes);
    assert NL !in UserPrefix by {
      assert '\n' !in "user_";
      LitLacks("user_", '\n');
    }
    assert forall c :: c in u ==> c in UserPrefix || c in Hex(userBytes);
  }

  /** None of the three keys contains a line feed. */
  lemma KeysAreSingleLine()
    ensures SingleLine(UsernameKey) && SingleLine(PasswordKey) && SingleLine(SecretKey)
  {
    assert '\n' !in "AUTH_USERNAME=" && '\n' !in "AUTH_PASSWORD=" && '\n' !in "JWT_SECRET=";
    LitLacks("AUTH_USERNAME=", '\n');
    LitLacks("AUTH_PASSWORD=", '\n');
    LitLacks("JWT_SECRET=", '\n');
  }

  /** Reading the written file back line by line gives exactly the new lines. */
  lemma WrittenLines(env: Str, v: Values)
    requires SingleLineValues(v)
    ensures Split(NewEnv(env, v), Newline) == NewLines(Split(env, Newline), v)
  {
    var lines := Split(env, Newline);
    var out := NewLines(lines, v);
    SplitPiecesLackSeparator(env, Newline);
    KeysAreSingleLine();
    forall k | 0 <= k < |out| ensures !Contains(out[k], Newline) {
      var p := out[k];
      if p == UsernameKey + v.username || p == PasswordKey + v.passwordHash || p == SecretKey + v.jwtSecret {
        UnitContains(p, NL);
      } else {
        assert k < |lines| && p == lines[k];
        assert lines[k] in lines;
      }
    }
    SingleUnitBorderFree(NL);
    SplitJoin(out, Newline);
  }

  /** The written file has one line more than the old one for each key the old one lacked. */
  lemma LineCount(env: Str, v: Values)
    requires SingleLineValues(v)
    ensures var lines := Split(env, Newline);
      |Split(NewEnv(env, v), Newline)| == |lines|
        + (if HasKey(lines, UsernameKey) then 0 else 1)
        + (if HasKey(lines, PasswordKey) then 0 else 1)
        + (if HasKey(lines, SecretKey) then 0 else 1)
  {
    WrittenLines(env, v);
  }

  predicate IsEntry(v: Values, key: Str, value: Str) {
    || (key == UsernameKey && value == v.username)
    || (key == PasswordKey && value == v.passwordHash)
    || (key == SecretKey && value == v.jwtSecret)
  }

  /** After a rewrite each key is present: replaced in place, or appended. */
  lemma KeyPresent(lines: seq<Str>, v: Values, key: Str, value: Str)
    requires IsEntry(v, key, value)
    ensures HasKey(NewLines(lines, v), key)
  {
    var out := NewLines(lines, v);
    assert StartsWith(key + value, key) by {
      assert (key + value)[..|key|] == key;
    }
    if HasKey(lines, key) {
      var k :| 0 <= k < |lines| && StartsWith(lines[k], key);
      KeysExclusive(lines[k]);
      assert out[k] == key + value;
    } else {
      var a := Appended(lines, v);
      assert key + value in a;
      var k :| 0 <= k < |a| && a[k] == key + value;
      assert out[|lines| + k] == key + value;
    }
  }

  /** Running the script a second time replaces in place and adds no line. */
  lemma SecondRunAddsNoLines(env: Str, v: Values, w: Values)
    requires SingleLineValues(v) && SingleLineValues(w)
    ensures |Split(NewEnv(NewEnv(env, v), w), Newline)| == |Split(NewEnv(env, v), Newline)|
  {
    var once := NewEnv(env, v);
    var lines := Split(env, Newline);
    WrittenLines(env, v);
    KeyPresent(lines, v, UsernameKey, v.username);
    KeyPresent(lines, v, PasswordKey, v.passwordHash);
    KeyPresent(lines, v, SecretKey, v.jwtSecret);
    LineCount(once, w);
  }

  /** Without a `.env` file the written text starts with an empty line before the three entries. */
  lemma MissingFileLayout(v: Values)
    ensures NewEnv(EnvText(None), v) ==
      Newline + UsernameKey + v.username + Newline + PasswordKey + v.passwordHash + Newline + SecretKey + v.jwtSecret
  {
    var lines := Split([], Newline);
    assert lines == [[]];
    assert !StartsWith([], UsernameKey) && !StartsWith([], PasswordKey) && !StartsWith([], SecretKey);
    var u, p, j := UsernameKey + v.username, PasswordKey + v.passwordHash, SecretKey + v.jwtSecret;
    var out := NewLines(lines, v);
    assert out == [[], u, p, j];
    assert Join([p, j], Newline) == p + Newline + j by {
      assert [p, j][1..] == [j];
    }
    assert Join([u, p, j], Newline) == u + Newline + (p + Newline + j) by {
      assert [u, p, j][1..] == [p, j];
    }
    assert Join(out, Newline) == [] + Newline + (u + Newline + (p + Newline + j)) by {
      assert out[1..] == [u, p, j];
    }
  }

  /** In the new lines, the only line starting with `AUTH_PASSWORD=` carries the new hash. */
  lemma PasswordLines(lines: seq<Str>, v: Values, k: nat)
    requires k < |NewLines(lines, v)| && StartsWith(NewLines(lines, v)[k], PasswordKey)
    ensures NewLines(lines, v)[k] == PasswordKey + v.passwordHash
  {
    var line := NewLines(lines, v)[k];
    KeysExclusive(line);
    assert StartsWith(UsernameKey + v.username, UsernameKey) by {
      assert (UsernameKey + v.username)[..|UsernameKey|] == UsernameKey;
    }
    assert StartsWith(SecretKey + v.jwtSecret, SecretKey) by {
      assert (SecretKey + v.jwtSecret)[..|SecretKey|] == SecretKey;
    }
    if k < |lines| {
      KeysExclusive(lines[k]);
    }
  }

  /**
    After the rewrite there is an `AUTH_PASSWORD=` line, and every such line
    holds the bcrypt hash of the generated password.
  */
  lemma PasswordLineHoldsHash(env: Str, userBytes: seq<Byte>, passwordBytes: seq<Byte>, secretBytes: seq<Byte>,
                              hash: Str -> Str)
    requires |userBytes| == 4 && |passwordBytes| == 16 && |secretBytes| == 64
    requires SingleLine(hash(GeneratePassword(passwordBytes, 16)))
    ensures var password := GeneratePassword(passwordBytes, 16);
      var out := Split(NewEnv(env, MakeValues(userBytes, passwordBytes, secretBytes, hash)), Newline);
      && HasKey(out, PasswordKey)
      && forall k :: 0 <= k < |out| && StartsWith(out[k], PasswordKey) ==> out[k] == PasswordKey + hash(password)
  {
    var v := MakeValues(userBytes, passwordBytes, secretBytes, hash);
    var lines := Split(env, Newline);
    GeneratedValuesSingleLine(userBytes, passwordBytes, secretBytes, hash);
    WrittenLines(env, v);
    KeyPresent(lines, v, PasswordKey, v.passwordHash);
    forall k | 0 <= k < |NewLines(lines, v)| && StartsWith(NewLines(lines, v)[k], PasswordKey)
      ensures NewLines(lines, v)[k] == PasswordKey + v.passwordHash
    {
      PasswordLines(lines, v, k);
    }
  }
}
