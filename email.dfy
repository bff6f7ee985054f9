/** The token handling of `dmutils/email.py`: text to bytes, the salt
    framing of the encrypted tokens, the timestamp inside a Fernet token,
    and the checks applied to decoded invitation and password-reset tokens.
    Fernet encryption and decryption, JSON and base64 are parameters. */
module Email {

  import opened Results
  import opened Text
  import opened Values
  import opened Bytes

  const OneDayInSeconds := 86400

  /** What `to_bytes` may be given under Python 2: text, a byte string or
      any other object. */
  datatype PyObject = Unicode(text: string) | ByteString(bytes: seq<byte>) | Other(value: Value)

  /** `to_bytes(x)`: text is encoded as UTF-8; a byte string is `encode`d
      too, which Python 2 does by first decoding it as ASCII; anything else
      is returned as it is. */
  function ToBytes(x: PyObject): (r: Result<PyObject>)
  {
    match x
    case Unicode(s) => Ok(ByteString(Utf8(s)))
    case ByteString(b) => if AsciiBytes(b) then Ok(x) else Raise(UnicodeDecodeError)
    case Other(_) => Ok(x)
  }

  /** Text comes back as bytes that decode to it, objects other than text
      come back unchanged, and ASCII byte strings too. */
  lemma {:induction false} ToBytesMeaning(x: PyObject)
    ensures x.Unicode? ==> ToBytes(x).Ok? && ToBytes(x).value.ByteString?
                           && Utf8Decode(ToBytes(x).value.bytes) == Ok(x.text)
    ensures x.Other? ==> ToBytes(x) == Ok(x)
    ensures x.ByteString? ==> (ToBytes(x).Ok? <==> AsciiBytes(x.bytes)) && (ToBytes(x).Ok? ==> ToBytes(x) == Ok(x))
  {
    if x.Unicode? { Utf8DecodeEncode(x.text); }
  }

  /** Applied twice, `to_bytes` is applied once exactly when the text is
      ASCII: the UTF-8 bytes of other text are not ASCII and cannot be
      encoded again. */
  lemma {:induction false} ToBytesTwice(s: string)
    ensures ToBytes(ToBytes(Unicode(s)).value) == ToBytes(Unicode(s)) <==> IsAscii(s)
  {
    if IsAscii(s) {
      Utf8Ascii(s);
    } else {
      Utf8NotAscii(s);
    }
  }

  /** The clear text of a token: `salt`, a NUL byte, then the JSON. */
  function Framed(salt: string, json: string): seq<byte> {
    Utf8(salt) + [0] + Utf8(json)
  }

  /** `generate_token(data, secret_key, salt)`: `dumps` is `json.dumps` and
      `encrypt` is Fernet encryption under the secret key. */
  function GenerateToken(data: Value, salt: string, dumps: Value -> string,
                         encrypt: seq<byte> -> seq<byte>): seq<byte>
  {
    encrypt(Framed(salt, dumps(data)))
  }

  /** `decode_token(token, secret_key, salt, max_age)`: `decrypt` is Fernet
      decryption under the secret key with the age limit (raising
      `InvalidToken`), and `loads` is `json.loads`.  Clear text without a NUL
      cannot be unpacked into two parts. */
  function DecodeToken(token: seq<byte>, salt: string, decrypt: seq<byte> -> Result<seq<byte>>,
                       loads: string -> Result<Value>): (r: Result<Value>)
    ensures r.Ok? ==> decrypt(token).Ok? && SplitFirst(decrypt(token).value, 0).Split?
                      && SplitFirst(decrypt(token).value, 0).before == Utf8(salt)
    ensures (decrypt(token).Ok? && SplitFirst(decrypt(token).value, 0).Split?
             && SplitFirst(decrypt(token).value, 0).before != Utf8(salt)) ==> r == Raise(InvalidToken)
  {
    var clear :- decrypt(token);
    match SplitFirst(clear, 0)
    case Whole => Raise(ValueError("need more than 1 value to unpack"))
    case Split(tokenSalt, jsonData) =>
      if tokenSalt != Utf8(salt) then Raise(InvalidToken)
      else
        var text :- Utf8Decode(jsonData);
        loads(text)
  }

  /** A token made with a salt without NUL is read back with the same salt
      as the data it was made from, when Fernet and JSON each undo
      themselves. */
  lemma {:induction false} DecodeGeneratedToken(data: Value, salt: string, dumps: Value -> string,
                             encrypt: seq<byte> -> seq<byte>, decrypt: seq<byte> -> Result<seq<byte>>,
                             loads: string -> Result<Value>)
    requires '\0' !in salt
    requires forall clear :: decrypt(encrypt(clear)) == Ok(clear)
    requires forall v :: loads(dumps(v)) == Ok(v)
    ensures DecodeToken(GenerateToken(data, salt, dumps, encrypt), salt, decrypt, loads) == Ok(data)
  {
    Utf8Nul(salt);
    SplitFirstJoin(Utf8(salt), 0, Utf8(dumps(data)));
    Utf8DecodeEncode(dumps(data));
  }

  /** A token made with one salt is refused under any other. */
  lemma {:induction false} DecodeWithOtherSalt(data: Value, salt: string, other: string, dumps: Value -> string,
                            encrypt: seq<byte> -> seq<byte>, decrypt: seq<byte> -> Result<seq<byte>>,
                            loads: string -> Result<Value>)
    requires '\0' !in salt && other != salt
    requires forall clear :: decrypt(encrypt(clear)) == Ok(clear)
    ensures DecodeToken(GenerateToken(data, salt, dumps, encrypt), other, decrypt, loads) == Raise(InvalidToken)
  {
    Utf8Nul(salt);
    SplitFirstJoin(Utf8(salt), 0, Utf8(dumps(data)));
    if Utf8(salt) == Utf8(other) { Utf8Injective(salt, other); }
  }

  /** Seconds from 1970-01-01 to 10000-01-01, past the last `datetime`. */
  const DatetimeLimit := 253402300800

  /** `parse_fernet_timestamp(ciphertext)`, as seconds since 1970-01-01:
      bytes 1 to 8 of the decoded token read as a big-endian unsigned
      number.  `b64decode` is `base64.urlsafe_b64decode`.  Fewer than eight
      bytes there is a `struct.error`, raised again as `ValueError`; a count
      beyond the year 9999 overflows `datetime`. */
  function ParseFernetTimestamp(ciphertext: seq<byte>, b64decode: seq<byte> -> Result<seq<byte>>): (r: Result<nat>)
    ensures r.Ok? ==> r.value < DatetimeLimit
  {
    var decoded :- b64decode(ciphertext);
    if |decoded| < 9 then Raise(ValueError("unpack requires a string argument of length 8"))
    else
      var seconds := BigEndian(decoded[1..9]);
      if seconds >= DatetimeLimit then Raise(OverflowError) else Ok(seconds)
  }

  /** The time a token carries after its version byte is the time read. */
  lemma {:induction false} FernetTimestampOfLayout(ciphertext: seq<byte>, b64decode: seq<byte> -> Result<seq<byte>>,
                                version: byte, seconds: nat, rest: seq<byte>)
    requires b64decode(ciphertext) == Ok([version] + ToBigEndian(seconds, 8) + rest)
    requires seconds < DatetimeLimit
    ensures ParseFernetTimestamp(ciphertext, b64decode) == Ok(seconds)
  {
    var decoded := [version] + ToBigEndian(seconds, 8) + rest;
    assert decoded[1..9] == ToBigEndian(seconds, 8);
    assert DatetimeLimit < Pow256(8) by {
      assert Pow256(8) == 18446744073709551616 by {
        assert Pow256(4) == 4294967296 by {
          assert Pow256(2) == 65536;
        }
      }
    }
    BigEndianRoundTrip(seconds, 8);
  }

  /** Too short a token raises `ValueError`. */
  lemma {:induction false} FernetTimestampShort(ciphertext: seq<byte>, b64decode: seq<byte> -> Result<seq<byte>>)
    requires b64decode(ciphertext).Ok? && |b64decode(ciphertext).value| < 9
    ensures ParseFernetTimestamp(ciphertext, b64decode).Raise?
    ensures ParseFernetTimestamp(ciphertext, b64decode).error.ValueError?
  {
  }

  /** The reply to a password-reset token that is refused. */
  const TokenInvalid := Dict(map["error" := Str("token_invalid")])

  /** `decode_password_reset_token(token, data_api_client)`: `decoded` is
      the outcome of `decode_token` with the reset salt and a one-day age
      limit, and `changedAt` looks up the token's user and reads when the
      password was last changed, in seconds since 1970-01-01.  Only
      `InvalidToken` is caught. */
  function DecodePasswordResetToken(token: seq<byte>, decoded: Result<Value>,
                                    b64decode: seq<byte> -> Result<seq<byte>>,
                                    changedAt: Value -> Result<int>): (r: Result<Value>)
  {
    match decoded
    case Raise(e) => if e == InvalidToken then Ok(TokenInvalid) else Raise(e)
    case Ok(data) =>
      match ParseFernetTimestamp(token, b64decode)
      case Raise(e) => if e == InvalidToken then Ok(TokenInvalid) else Raise(e)
      case Ok(timestamp) =>
        var changed :- changedAt(data);
        if timestamp < changed then Ok(TokenInvalid) else Ok(data)
  }

  /** A reset token is refused when it cannot be decrypted or was made
      before the password last changed; otherwise its data is returned. */
  lemma {:induction false} PasswordResetOutcome(token: seq<byte>, decoded: Result<Value>,
                             b64decode: seq<byte> -> Result<seq<byte>>, changedAt: Value -> Result<int>)
    ensures decoded == Raise(InvalidToken) ==> DecodePasswordResetToken(token, decoded, b64decode, changedAt) == Ok(TokenInvalid)
    ensures decoded.Ok? && ParseFernetTimestamp(token, b64decode).Ok? && changedAt(decoded.value).Ok? ==>
              var r := DecodePasswordResetToken(token, decoded, b64decode, changedAt);
              (ParseFernetTimestamp(token, b64decode).value < changedAt(decoded.value).value ==> r == Ok(TokenInvalid))
              && (ParseFernetTimestamp(token, b64decode).value >= changedAt(decoded.value).value ==> r == decoded)
    ensures decoded.Raise? && decoded.error != InvalidToken ==>
              DecodePasswordResetToken(token, decoded, b64decode, changedAt) == Raise(decoded.error)
  {
  }

  /** The fields an invitation for `role` must carry. */
  function RequiredFields(role: string): (r: seq<string>)
    ensures role == "supplier" ==> r == ["email_address", "supplier_code", "supplier_name"]
    ensures role != "supplier" ==> r == ["email_address"]
  {
    if role == "supplier" then ["email_address", "supplier_code", "supplier_name"] else ["email_address"]
  }

  /** `all(field in token for field in fields)`, stopping at the first
      field that is not there or cannot be searched for. */
  function AllIn(fields: seq<string>, token: Value): (r: Result<bool>)
    ensures r == Ok(true) <==> forall k :: 0 <= k < |fields| ==> PyIn(fields[k], token) == Ok(true)
  {
    if fields == [] then Ok(true)
    else
      match PyIn(fields[0], token)
      case Raise(e) => Raise(e)
      case Ok(found) =>
        if !found then Ok(false)
        else
          var rest := AllIn(fields[1..], token);
          assert forall k :: 1 <= k < |fields| ==> fields[k] == fields[1..][k - 1];
          rest
  }

  /** `decode_invitation_token(encoded_token, role)`: `decoded` is the
      outcome of `decode_token` with the invitation salt and a seven-day age
      limit.  Every exception, including a missing field, gives `None`. */
  function DecodeInvitationToken(decoded: Result<Value>, role: string): (r: Option<Value>)
    ensures r.Some? <==> decoded.Ok? && forall k :: 0 <= k < |RequiredFields(role)| ==> PyIn(RequiredFields(role)[k], decoded.value) == Ok(true)
    ensures r.Some? ==> r.value == decoded.value
  {
    match decoded
    case Raise(_) => None
    case Ok(token) =>
      match AllIn(RequiredFields(role), token)
      case Ok(true) => Some(token)
      case _ => None
  }

  /** A supplier's invitation needs the three supplier fields, anyone
      else's only the address. */
  lemma {:induction false} InvitationFields(entries: map<string, Value>, role: string)
    ensures var r := DecodeInvitationToken(Ok(Dict(entries)), role);
            (role == "supplier" ==>
               (r.Some? <==> "email_address" in entries && "supplier_code" in entries && "supplier_name" in entries))
            && (role != "supplier" ==> (r.Some? <==> "email_address" in entries))
  {
    var fields := RequiredFields(role);
    if role == "supplier" {
      assert fields[0] == "email_address" && fields[1] == "supplier_code" && fields[2] == "supplier_name";
    } else {
      assert fields[0] == "email_address";
    }
  }
}
