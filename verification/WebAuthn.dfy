/** Reading the P-256 public key out of an attestation object. */
module WebAuthn {
  import opened Bytes
  import opened Wrappers
  import opened Cbor

  /** The text "authData" in UTF-8. */
  const AUTH_DATA: seq<Byte> := [0x61, 0x75, 0x74, 0x68, 0x44, 0x61, 0x74, 0x61]

  const COSE_KEY_MAX: nat := 77
  const LABEL_X: int := -2
  const LABEL_Y: int := -3

  // ---- attestation object ----

  /** One pair read: the value under the key, whatever its type, or where the next pair starts. */
  datatype Step = Found(authData: seq<Byte>) | Next(offset: nat)

  function StepAt(data: seq<Byte>, o: nat): Result<Step, ParseError> {
    var initial :- ByteAt(data, o);
    if initial / 32 != TEXT then
      var next :- SkipPair(data, o);
      Ok(Next(next))
    else
      var (len, p) :- LengthAt(data, o + 1, initial % 32);
      if Clamped(data, p, p + len) == AUTH_DATA then
        var valueInitial :- ByteAt(data, p + len);
        var (valueLen, q) :- LengthAt(data, p + len + 1, valueInitial % 32);
        Ok(Found(Clamped(data, q, q + valueLen)))
      else
        var next :- Skip(data, p + len);
        Ok(Next(next))
  }

  /** The first value under the key among `n` pairs from `o` on. */
  function AuthDataAmong(data: seq<Byte>, o: nat, n: nat): Result<seq<Byte>, ParseError>
    decreases n
  {
    if n == 0 then Err(NoAuthData)
    else
      match StepAt(data, o)
      case Err(e) => Err(e)
      case Ok(Found(authData)) => Ok(authData)
      case Ok(Next(next)) => AuthDataAmong(data, next, n - 1)
  }

  function AuthDataOf(data: seq<Byte>): Result<seq<Byte>, ParseError> {
    var initial :- ByteAt(data, 0);
    if initial / 32 != MAP then Err(MapExpected)
    else
      var (n, p) :- LengthAt(data, 1, initial % 32);
      AuthDataAmong(data, p, n)
  }

  /** The state that the reading functions of the source share. */
  class CborReader {
    const data: seq<Byte>
    var offset: nat

    constructor (data: seq<Byte>)
      ensures this.data == data && offset == 0
    {
      this.data := data;
      offset := 0;
    }

    method ReadByte() returns (r: Result<Byte, ParseError>)
      modifies this`offset
      ensures r == ByteAt(data, old(offset)) && (r.Ok? ==> offset == old(offset) + 1)
    {
      if offset >= |data| {
        return Err(EndOfData);
      }
      r := Ok(data[offset]);
      offset := offset + 1;
    }

    method ReadUint(bytes: nat) returns (r: Result<nat, ParseError>)
      modifies this`offset
      ensures if r.Ok? then UintAt(data, old(offset), bytes) == Ok((r.value, offset))
              else UintAt(data, old(offset), bytes) == Err(r.error)
    {
      if offset + bytes > |data| {
        return Err(EndOfData);
      }
      r := Ok(BeValue(data[offset..offset + bytes]));
      offset := offset + bytes;
    }

    method ReadLength(info: nat) returns (r: Result<nat, ParseError>)
      modifies this`offset
      ensures if r.Ok? then LengthAt(data, old(offset), info) == Ok((r.value, offset))
              else LengthAt(data, old(offset), info) == Err(r.error)
    {
      if info < 24 {
        return Ok(info);
      }
      if info == 24 {
        r := ReadUint(1);
      } else if info == 25 {
        r := ReadUint(2);
      } else if info == 26 {
        r := ReadUint(4);
      } else {
        r := Err(UnsupportedLength);
      }
    }

    /** The narrower reading of heads inside a COSE key. */
    method ReadShortLength(info: nat) returns (r: Result<nat, ParseError>)
      modifies this`offset
      ensures if r.Ok? then CoseLengthAt(data, old(offset), info) == Ok((r.value, offset))
              else CoseLengthAt(data, old(offset), info) == Err(r.error)
    {
      if info < 24 {
        return Ok(info);
      }
      if info == 24 {
        r := ReadUint(1);
      } else {
        r := Err(UnsupportedLength);
      }
    }

    method ReadBytes(len: nat) returns (s: seq<Byte>)
      modifies this`offset
      ensures s == Clamped(data, old(offset), old(offset) + len) && offset == old(offset) + len
    {
      s := Clamped(data, offset, offset + len);
      offset := offset + len;
    }

    method SkipValue() returns (r: Result<(), ParseError>)
      modifies this`offset
      ensures if r.Ok? then Skip(data, old(offset)) == Ok(offset) else Skip(data, old(offset)) == Err(r.error)
      decreases Remaining(data, offset)
    {
      hide LengthAt;
      var initial :- ReadByte();
      var majorType, additionalInfo := initial / 32, initial % 32;
      if majorType == BYTES || majorType == TEXT {
        var len :- ReadLength(additionalInfo);
        offset := offset + len;
      } else if majorType == ARRAY {
        var len :- ReadLength(additionalInfo);
        ghost var start := offset;
        for i := 0 to len
          invariant old(offset) < offset && SkipMany(data, start, len) == SkipMany(data, offset, len - i)
        {
          var _ :- SkipValue();
        }
      } else if majorType == MAP {
        var len :- ReadLength(additionalInfo);
        ghost var start := offset;
        for i := 0 to len
          invariant old(offset) < offset && SkipPairs(data, start, len) == SkipPairs(data, offset, len - i)
        {
          var _ :- SkipValue();
          var _ :- SkipValue();
        }
      } else if majorType == 6 {
        return Err(UnsupportedType);
      } else {
        var _ :- ReadLength(additionalInfo);
      }
      r := Ok(());
    }

    method ReadCoseKey() returns (r: Result<int, ParseError>)
      modifies this`offset
      ensures if r.Ok? then CoseKeyAt(data, old(offset)) == Ok((r.value, offset))
              else CoseKeyAt(data, old(offset)) == Err(r.error)
    {
      hide CoseLengthAt;
      var keyByte :- ReadByte();
      var keyMajor := keyByte / 32;
      if keyMajor != UNSIGNED && keyMajor != NEGATIVE {
        return Err(UnsupportedType);
      }
      var n :- ReadShortLength(keyByte % 32);
      var keyVal: int := n;
      if keyMajor == NEGATIVE {
        keyVal := -1 - (n as int);
      }
      r := Ok(keyVal);
    }

    /** The body of the loop over the map's pairs. */
    method ReadPair() returns (r: Result<Option<seq<Byte>>, ParseError>)
      modifies this`offset
      ensures r.Err? ==> StepAt(data, old(offset)) == Err(r.error)
      ensures r.Ok? && r.value.Some? ==> StepAt(data, old(offset)) == Ok(Found(r.value.value))
      ensures r.Ok? && r.value.None? ==> StepAt(data, old(offset)) == Ok(Next(offset))
    {
      hide Skip, LengthAt, Clamped;
      var keyInitial :- ReadByte();
      if keyInitial / 32 != TEXT {
        offset := offset - 1;
        var _ :- SkipValue();
        var _ :- SkipValue();
        return Ok(None);
      }
      var keyLen :- ReadLength(keyInitial % 32);
      var key := ReadBytes(keyLen);
      if key == AUTH_DATA {
        var valInitial :- ReadByte();
        var valLen :- ReadLength(valInitial % 32);
        var value := ReadBytes(valLen);
        return Ok(Some(value));
      }
      var _ :- SkipValue();
      r := Ok(None);
    }
  }

  method ExtractAuthDataFromCbor(data: seq<Byte>) returns (r: Result<seq<Byte>, ParseError>)
    ensures r == AuthDataOf(data)
  {
    hide StepAt, LengthAt;
    var reader := new CborReader(data);
    var initial :- reader.ReadByte();
    if initial / 32 != MAP {
      return Err(MapExpected);
    }
    var mapLen :- reader.ReadLength(initial % 32);
    ghost var start := reader.offset;
    for i := 0 to mapLen
      invariant AuthDataAmong(data, start, mapLen) == AuthDataAmong(data, reader.offset, mapLen - i)
    {
      var found :- reader.ReadPair();
      if found.Some? {
        return Ok(found.value);
      }
    }
    r := Err(NoAuthData);
  }

  // ---- authenticator data ----

  const ATTESTED_FLAG: nat := 0x40

  /** The bytes in which the public key is looked for. */
  function KeyBytesOf(authData: seq<Byte>): Result<seq<Byte>, ParseError> {
    if |authData| <= 32 || authData[32] / ATTESTED_FLAG % 2 == 0 then Err(NoCredential)
    else
      var (len, p) :- UintAt(authData, 53, 2);
      Ok(Clamped(authData, p + len, p + len + COSE_KEY_MAX))
  }

  function PublicKeyOf(authData: seq<Byte>): Result<seq<Byte>, ParseError> {
    var keyBytes :- KeyBytesOf(authData);
    P256Of(keyBytes)
  }

  method ExtractPublicKeyFromAuthData(authData: seq<Byte>) returns (r: Result<seq<Byte>, ParseError>)
    ensures r == PublicKeyOf(authData)
  {
    var offset := 0;
    offset := offset + 32;
    if offset >= |authData| {
      return Err(NoCredential);
    }
    var flags := authData[offset];
    offset := offset + 1;
    offset := offset + 4;
    if flags / ATTESTED_FLAG % 2 == 0 {
      return Err(NoCredential);
    }
    offset := offset + 16;
    var credIdLength :- UintAt(authData, offset, 2);
    offset := offset + 2;
    offset := offset + credIdLength.0;
    r := ExtractP256FromCoseKey(Clamped(authData, offset, offset + COSE_KEY_MAX));
  }

  // ---- COSE key ----

  /** The coordinates seen so far; a later one replaces an earlier one. */
  datatype Coords = Coords(x: Option<seq<Byte>>, y: Option<seq<Byte>>) {
    function Noted(key: int, bytes: seq<Byte>): Coords {
      if key == LABEL_X then this.(x := Some(bytes)) else if key == LABEL_Y then this.(y := Some(bytes)) else this
    }
  }

  function CoseLengthAt(data: seq<Byte>, o: nat, info: nat): Result<(nat, nat), ParseError> {
    if info < 24 then Ok((info, o)) else if info == 24 then UintAt(data, o, 1) else Err(UnsupportedLength)
  }

  function CoseKeyAt(data: seq<Byte>, o: nat): Result<(int, nat), ParseError> {
    var initial :- ByteAt(data, o);
    if initial / 32 != UNSIGNED && initial / 32 != NEGATIVE then Err(UnsupportedType)
    else
      var (n, p) :- CoseLengthAt(data, o + 1, initial % 32);
      Ok((if initial / 32 == UNSIGNED then n else -1 - n, p))
  }

  function CoseValueAt(data: seq<Byte>, o: nat, key: int, coords: Coords): Result<(Coords, nat), ParseError> {
    var initial :- ByteAt(data, o);
    var major := initial / 32;
    if major != UNSIGNED && major != NEGATIVE && major != BYTES then Err(UnsupportedType)
    else
      var (n, p) :- CoseLengthAt(data, o + 1, initial % 32);
      if major == BYTES then Ok((coords.Noted(key, Clamped(data, p, p + n)), p + n)) else Ok((coords, p))
  }

  function CoseEntries(data: seq<Byte>, o: nat, n: nat, coords: Coords): Result<Coords, ParseError>
    decreases n
  {
    if n == 0 then Ok(coords)
    else
      var (key, p) :- CoseKeyAt(data, o);
      var (after, q) :- CoseValueAt(data, p, key, coords);
      CoseEntries(data, q, n - 1, after)
  }

  /** 0x04, then `x` from index 1 on, then over it `y` from index 33 on, in 65 bytes. */
  function Point(coords: Coords): Result<seq<Byte>, ParseError> {
    if coords.x.None? || coords.y.None? then Err(NoCoordinates)
    else
      var x, y := coords.x.value, coords.y.value;
      if 1 + |x| > 65 || 33 + |y| > 65 then Err(OutOfRange)
      else Ok(seq(65, k requires 0 <= k < 65 =>
        if k == 0 then 0x04
        else if 33 <= k < 33 + |y| then y[k - 33]
        else if k < 1 + |x| then x[k - 1]
        else 0))
  }

  function P256Of(coseBytes: seq<Byte>): Result<seq<Byte>, ParseError> {
    var initial :- ByteAt(coseBytes, 0);
    if initial / 32 != MAP then Err(MapExpected)
    else
      var (n, p) :- CoseLengthAt(coseBytes, 1, initial % 32);
      var coords :- CoseEntries(coseBytes, p, n, Coords(None, None));
      Point(coords)
  }

  method ExtractP256FromCoseKey(coseBytes: seq<Byte>) returns (r: Result<seq<Byte>, ParseError>)
    ensures r == P256Of(coseBytes)
  {
    hide CoseLengthAt, CoseKeyAt;
    var reader := new CborReader(coseBytes);
    var x: Option<seq<Byte>>, y: Option<seq<Byte>> := None, None;
    var initial :- reader.ReadByte();
    if initial / 32 != MAP {
      return Err(MapExpected);
    }
    var mapLen :- reader.ReadShortLength(initial % 32);
    ghost var start := reader.offset;
    for i := 0 to mapLen
      invariant CoseEntries(coseBytes, start, mapLen, Coords(None, None))
             == CoseEntries(coseBytes, reader.offset, mapLen - i, Coords(x, y))
    {
      var keyVal :- reader.ReadCoseKey();
      ghost var valueAt := reader.offset;
      ghost var before := Coords(x, y);
      var valByte :- reader.ReadByte();
      var valMajor := valByte / 32;
      if valMajor == BYTES {
        var len :- reader.ReadShortLength(valByte % 32);
        var bytes := reader.ReadBytes(len);
        if keyVal == LABEL_X {
          x := Some(bytes);
        } else if keyVal == LABEL_Y {
          y := Some(bytes);
        }
      } else if valMajor == UNSIGNED || valMajor == NEGATIVE {
        var _ :- reader.ReadShortLength(valByte % 32);
      } else {
        return Err(UnsupportedType);
      }
      assert CoseValueAt(coseBytes, valueAt, keyVal, before) == Ok((Coords(x, y), reader.offset));
    }
    if x.None? || y.None? {
      return Err(NoCoordinates);
    }
    r := PlacePoint(x.value, y.value);
  }

  /** The source's fresh 65-byte array; `set` throws where a coordinate would reach past its end. */
  method PlacePoint(x: seq<Byte>, y: seq<Byte>) returns (r: Result<seq<Byte>, ParseError>)
    ensures r == Point(Coords(Some(x), Some(y)))
  {
    if 1 + |x| > 65 || 33 + |y| > 65 {
      return Err(OutOfRange);
    }
    var publicKey := new Byte[65](_ => 0);
    publicKey[0] := 0x04;
    forall k | 0 <= k < |x| {
      publicKey[1 + k] := x[k];
    }
    forall k | 0 <= k < |y| {
      publicKey[33 + k] := y[k];
    }
    r := Ok(publicKey[..]);
    assert r.value == Point(Coords(Some(x), Some(y))).value;
  }

  /** The whole parse, after base64url decoding. */
  method ParseAttestationObject(raw: seq<Byte>) returns (r: Result<seq<Byte>, ParseError>)
    ensures r == AttestedKey(raw)
  {
    var authData :- ExtractAuthDataFromCbor(raw);
    r := ExtractPublicKeyFromAuthData(authData);
  }

  function AttestedKey(raw: seq<Byte>): Result<seq<Byte>, ParseError> {
    var authData :- AuthDataOf(raw);
    PublicKeyOf(authData)
  }
}
