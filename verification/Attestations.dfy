/** Every well-formed attestation, in any order of entries, yields the key that it attests. */
module Attestations {
  import opened Bytes
  import opened Wrappers
  import opened Cbor
  import opened WebAuthn

  // ---- the attestation object: a map with the authenticator data among its entries ----

  /** The text key under which the parse looks, in any width. */
  predicate IsAuthDataKey(item: Item) {
    item.TextString? && item.content == AUTH_DATA
  }

  lemma ClampedHas(data: seq<Byte>, o: nat, s: seq<Byte>)
    requires Has(data, o, s)
    ensures Clamped(data, o, o + |s|) == s
  {
  }

  /** An item's head is read back, and its body stands right behind. */
  lemma ItemRead(data: seq<Byte>, o: nat, item: Item) returns (p: nat)
    requires item.WellFormed() && Has(data, o, Encode(item))
    ensures o < |data| && data[o] / 32 == item.Major() && data[o] % 32 == item.width.Info(item.Argument())
    ensures LengthAt(data, o + 1, data[o] % 32) == Ok((item.Argument(), p))
    ensures Has(data, p, Body(item)) && o + |Encode(item)| == p + |Body(item)|
  {
    hide Has, EncodeHead, LengthAt;
    var head := EncodeHead(item.Major(), item.width, item.Argument());
    HasConcat(data, o, head, Body(item));
    HeadRead(data, o, item.Major(), item.width, item.Argument());
    p := o + |head|;
  }

  /** A pair read: the value under the key, or a step over the whole pair. */
  lemma PairRead(data: seq<Byte>, o: nat, pair: Pair)
    requires pair.WellFormed() && Has(data, o, EncodePair(pair))
    ensures !IsAuthDataKey(pair.key) ==> StepAt(data, o) == Ok(Next(o + |EncodePair(pair)|))
    ensures IsAuthDataKey(pair.key) && pair.val.ByteString? ==> StepAt(data, o) == Ok(Found(pair.val.content))
  {
    hide Has, Encode, LengthAt, Skip, Clamped;
    var key, val, q := pair.key, pair.val, o + |Encode(pair.key)|;
    HasConcat(data, o, Encode(key), Encode(val));
    var p := ItemRead(data, o, key);
    SkipsPairEncoded(data, o, pair);
    SkipsEncoded(data, q, val);
    if key.TextString? {
      ClampedHas(data, p, key.content);
      if val.ByteString? {
        var r := ItemRead(data, q, val);
        ClampedHas(data, r, val.content);
      }
    }
  }

  /** The value of the first matching key is found behind any other entries. */
  lemma {:induction false} AuthDataFound(data: seq<Byte>, o: nat, pairs: seq<Pair>, k: nat)
    requires PairsWellFormed(pairs) && Has(data, o, EncodePairs(pairs))
    requires k < |pairs| && IsAuthDataKey(pairs[k].key) && pairs[k].val.ByteString?
    requires forall m :: 0 <= m < k ==> !IsAuthDataKey(pairs[m].key)
    ensures AuthDataAmong(data, o, |pairs|) == Ok(pairs[k].val.content)
    decreases k
  {
    hide Has, EncodePair, StepAt, IsAuthDataKey;
    HasConcat(data, o, EncodePair(pairs[0]), EncodePairs(pairs[1..]));
    PairRead(data, o, pairs[0]);
    if k > 0 {
      AuthDataFound(data, o + |EncodePair(pairs[0])|, pairs[1..], k - 1);
    }
  }

  /** And without a matching key the parse reports just that. */
  lemma {:induction false} AuthDataAbsent(data: seq<Byte>, o: nat, pairs: seq<Pair>)
    requires PairsWellFormed(pairs) && Has(data, o, EncodePairs(pairs))
    requires forall m :: 0 <= m < |pairs| ==> !IsAuthDataKey(pairs[m].key)
    ensures AuthDataAmong(data, o, |pairs|) == Err(NoAuthData)
    decreases |pairs|
  {
    hide Has, EncodePair, StepAt, IsAuthDataKey;
    if pairs != [] {
      HasConcat(data, o, EncodePair(pairs[0]), EncodePairs(pairs[1..]));
      PairRead(data, o, pairs[0]);
      AuthDataAbsent(data, o + |EncodePair(pairs[0])|, pairs[1..]);
    }
  }

  // ---- the key: a map from labels to integers and byte strings, all with short heads ----

  predicate Short(width: Width) {
    width.InHead? || width.One?
  }

  predicate IsLabel(item: Item) {
    (item.Unsigned? || item.Negative?) && Short(item.width)
  }

  function LabelOf(item: Item): int
    requires IsLabel(item)
  {
    if item.Unsigned? then item.value else -1 - (item.value as int)
  }

  predicate IsCosePair(pair: Pair) {
    pair.WellFormed() && IsLabel(pair.key)
    && (pair.val.Unsigned? || pair.val.Negative? || pair.val.ByteString?) && Short(pair.val.width)
  }

  predicate CosePairs(pairs: seq<Pair>) {
    forall i :: 0 <= i < |pairs| ==> IsCosePair(pairs[i])
  }

  /** The bytes under the last occurrence of a label. */
  function LastBytes(pairs: seq<Pair>, key: int): Option<seq<Byte>>
    requires CosePairs(pairs)
  {
    if pairs == [] then None
    else
      var later := LastBytes(pairs[1..], key);
      if later.Some? then later
      else if LabelOf(pairs[0].key) == key && pairs[0].val.ByteString? then Some(pairs[0].val.content)
      else None
  }

  function OrElse(later: Option<seq<Byte>>, before: Option<seq<Byte>>): Option<seq<Byte>> {
    if later.Some? then later else before
  }

  lemma CosePairRead(data: seq<Byte>, o: nat, pair: Pair, coords: Coords)
    requires IsCosePair(pair) && Has(data, o, EncodePair(pair))
    ensures CoseKeyAt(data, o) == Ok((LabelOf(pair.key), o + |Encode(pair.key)|))
    ensures CoseValueAt(data, o + |Encode(pair.key)|, LabelOf(pair.key), coords)
         == Ok((if pair.val.ByteString? then coords.Noted(LabelOf(pair.key), pair.val.content) else coords,
                o + |EncodePair(pair)|))
  {
    hide Has, Encode, Clamped, Pow256, BeValue, BeBytes;
    var key, val, q := pair.key, pair.val, o + |Encode(pair.key)|;
    HasConcat(data, o, Encode(key), Encode(val));
    var p := ItemRead(data, o, key);
    var r := ItemRead(data, q, val);
    if val.ByteString? {
      ClampedHas(data, r, val.content);
    }
  }

  lemma {:induction false} CosePairsRead(data: seq<Byte>, o: nat, pairs: seq<Pair>, coords: Coords)
    requires CosePairs(pairs) && PairsWellFormed(pairs) && Has(data, o, EncodePairs(pairs))
    ensures CoseEntries(data, o, |pairs|, coords)
         == Ok(Coords(OrElse(LastBytes(pairs, LABEL_X), coords.x), OrElse(LastBytes(pairs, LABEL_Y), coords.y)))
    decreases |pairs|
  {
    hide Has, EncodePair, CoseKeyAt, CoseValueAt, Item.WellFormed;
    if pairs != [] {
      var pair := pairs[0];
      HasConcat(data, o, EncodePair(pair), EncodePairs(pairs[1..]));
      CosePairRead(data, o, pair, coords);
      var after := if pair.val.ByteString? then coords.Noted(LabelOf(pair.key), pair.val.content) else coords;
      CosePairsRead(data, o + |EncodePair(pair)|, pairs[1..], after);
    }
  }

  /** Any encoded key map, whatever follows it, is read as the point of its last coordinates. */
  lemma CoseMapRead(key: Item, after: seq<Byte>)
    requires key.Map? && key.WellFormed() && Short(key.width) && CosePairs(key.pairs)
    ensures P256Of(Encode(key) + after) == Point(Coords(LastBytes(key.pairs, LABEL_X), LastBytes(key.pairs, LABEL_Y)))
  {
    hide Encode, CoseEntries, LastBytes, Point, CosePairs;
    var data := Encode(key) + after;
    assert Has(data, 0, Encode(key));
    var p := ItemRead(data, 0, key);
    CosePairsRead(data, p, key.pairs, Coords(None, None));
  }

  /**
   What becomes of the coordinates, whatever their number and lengths: one that is missing or would reach
   past the end is refused; otherwise 65 bytes with `y` in full at 33, and before and after it `x` and zeros.
   */
  lemma PointIff(x: Option<seq<Byte>>, y: Option<seq<Byte>>)
    ensures var r := Point(Coords(x, y));
            if x.None? || y.None? then r == Err(NoCoordinates)
            else if |x.value| > 64 || |y.value| > 32 then r == Err(OutOfRange)
            else
              var under := [0x04] + x.value + Zeros(64 - |x.value|);
              r == Ok(under[..33] + y.value + under[33 + |y.value|..])
  {
    if x.Some? && y.Some? && |x.value| <= 64 && |y.value| <= 32 {
      var under := [0x04] + x.value + Zeros(64 - |x.value|);
      assert Point(Coords(x, y)).value == under[..33] + y.value + under[33 + |y.value|..];
    }
  }

  /** A key map without bytes under one of the two labels is refused for that. */
  lemma NoCoordinatesRefused(key: Item, after: seq<Byte>, name: int)
    requires key.Map? && key.WellFormed() && Short(key.width) && CosePairs(key.pairs)
    requires name == LABEL_X || name == LABEL_Y
    requires forall j :: 0 <= j < |key.pairs| && LabelOf(key.pairs[j].key) == name ==> !key.pairs[j].val.ByteString?
    ensures P256Of(Encode(key) + after) == Err(NoCoordinates)
  {
    hide P256Of, Encode;
    CoseMapRead(key, after);
    NoBytesUnder(key.pairs, name);
  }

  lemma {:induction false} NoBytesUnder(pairs: seq<Pair>, name: int)
    requires CosePairs(pairs)
    requires forall j :: 0 <= j < |pairs| && LabelOf(pairs[j].key) == name ==> !pairs[j].val.ByteString?
    ensures LastBytes(pairs, name) == None
  {
    if pairs != [] {
      NoBytesUnder(pairs[1..], name);
    }
  }

  /** Authenticator data too short for what its flags announce is refused. */
  lemma ShortDataRefused(authData: seq<Byte>)
    ensures |authData| <= 32 ==> PublicKeyOf(authData) == Err(NoCredential)
    ensures 32 < |authData| < 55 ==>
            PublicKeyOf(authData) == Err(if authData[32] / 64 % 2 == 1 then EndOfData else NoCredential)
  {
  }

  /** What the walk refuses outright: no byte, a tag, and heads of eight bytes, reserved or indefinite. */
  lemma SkipRefuses(data: seq<Byte>, o: nat)
    ensures o >= |data| ==> Skip(data, o) == Err(EndOfData)
    ensures o < |data| && data[o] / 32 == 6 ==> Skip(data, o) == Err(UnsupportedType)
    ensures o < |data| && data[o] / 32 != 6 && data[o] % 32 >= 27 ==> Skip(data, o) == Err(UnsupportedLength)
  {
  }

  /** Both maps have to be maps. */
  lemma NoMapRefused(item: Item, after: seq<Byte>)
    requires item.WellFormed() && !item.Map?
    ensures AuthDataOf(Encode(item) + after) == Err(MapExpected) && P256Of(Encode(item) + after) == Err(MapExpected)
  {
    hide Encode, LengthAt, CoseLengthAt;
    var data := Encode(item) + after;
    assert Has(data, 0, Encode(item));
    var p := ItemRead(data, 0, item);
  }

  /** The keys of a map are unique, section 5.6 of RFC 8949. */
  ghost predicate UniqueLabels(pairs: seq<Pair>)
    requires CosePairs(pairs)
  {
    forall i, j :: 0 <= i < j < |pairs| ==> LabelOf(pairs[i].key) != LabelOf(pairs[j].key)
  }

  lemma {:induction false} UniqueBytes(pairs: seq<Pair>, i: nat)
    requires CosePairs(pairs) && UniqueLabels(pairs) && i < |pairs| && pairs[i].val.ByteString?
    ensures LastBytes(pairs, LabelOf(pairs[i].key)) == Some(pairs[i].val.content)
  {
    if i == 0 {
      NoBytes(pairs[1..], LabelOf(pairs[0].key));
    } else {
      UniqueBytes(pairs[1..], i - 1);
    }
  }

  lemma {:induction false} NoBytes(pairs: seq<Pair>, key: int)
    requires CosePairs(pairs) && forall j :: 0 <= j < |pairs| ==> LabelOf(pairs[j].key) != key
    ensures LastBytes(pairs, key) == None
  {
    if pairs != [] {
      NoBytes(pairs[1..], key);
    }
  }

  /** A key whose coordinates, 32 bytes each, stand at entries `i` and `j`. */
  ghost predicate HoldsPoint(key: Item, i: nat, j: nat, x: Bytes32, y: Bytes32) {
    && key.Map? && key.WellFormed() && Short(key.width)
    && CosePairs(key.pairs) && UniqueLabels(key.pairs)
    && i < |key.pairs| && LabelOf(key.pairs[i].key) == LABEL_X
    && j < |key.pairs| && LabelOf(key.pairs[j].key) == LABEL_Y
    && key.pairs[i].val.ByteString? && key.pairs[i].val.content == x
    && key.pairs[j].val.ByteString? && key.pairs[j].val.content == y
  }

  lemma PointRead(key: Item, i: nat, j: nat, x: Bytes32, y: Bytes32, after: seq<Byte>)
    requires HoldsPoint(key, i, j, x, y)
    ensures P256Of(Encode(key) + after) == Ok([0x04] + x + y)
  {
    hide Encode, LastBytes, P256Of, IsCosePair;
    CoseMapRead(key, after);
    UniqueBytes(key.pairs, i);
    UniqueBytes(key.pairs, j);
    assert Point(Coords(Some(x), Some(y))).value == [0x04] + x + y;
  }

  /** As authenticators write it: coordinates in 32 bytes, small integers otherwise, the shortest heads. */
  predicate Compact(pair: Pair)
    requires IsCosePair(pair)
  {
    && pair.key.width.InHead?
    && if LabelOf(pair.key) == LABEL_X || LabelOf(pair.key) == LABEL_Y
       then pair.val.ByteString? && pair.val.width.One? && |pair.val.content| == 32
       else !pair.val.ByteString? && pair.val.width.InHead?
  }

  lemma CompactPairSize(pair: Pair)
    requires IsCosePair(pair) && Compact(pair)
    ensures |EncodePair(pair)| == if LabelOf(pair.key) == LABEL_X || LabelOf(pair.key) == LABEL_Y then 35 else 2
  {
    hide BeBytes, Pow256;
    assert |Encode(pair.key)| == 1 + |Body(pair.key)| == 1;
    assert |Encode(pair.val)| == if pair.val.ByteString? then 2 + |Body(pair.val)| else 1 + |Body(pair.val)|;
  }

  lemma {:induction false} CompactSize(pairs: seq<Pair>)
    requires CosePairs(pairs) && PairsWellFormed(pairs) && UniqueLabels(pairs)
    requires forall m :: 0 <= m < |pairs| ==> Compact(pairs[m])
    ensures |EncodePairs(pairs)| == 2 * |pairs|
      + (if LastBytes(pairs, LABEL_X).Some? then 33 else 0) + (if LastBytes(pairs, LABEL_Y).Some? then 33 else 0)
  {
    hide EncodePair;
    if pairs != [] {
      CompactPairSize(pairs[0]);
      CompactSize(pairs[1..]);
      NoBytes(pairs[1..], LabelOf(pairs[0].key));
    }
  }

  /** The bound of 77 bytes is that of a key of five entries, whatever their order. */
  lemma FiveEntriesFit(key: Item, i: nat, j: nat, x: Bytes32, y: Bytes32)
    requires HoldsPoint(key, i, j, x, y) && key.width.InHead?
    requires forall m :: 0 <= m < |key.pairs| ==> Compact(key.pairs[m])
    ensures |Encode(key)| <= COSE_KEY_MAX <==> |key.pairs| <= 5
    ensures |key.pairs| == 5 ==> |Encode(key)| == COSE_KEY_MAX
  {
    UniqueBytes(key.pairs, i);
    UniqueBytes(key.pairs, j);
    CompactSize(key.pairs);
  }

  // ---- authenticator data ----

  /** Section 6.1 of Web Authentication Level 2, with attested credential data. */
  datatype AuthenticatorData = AuthenticatorData(
    rpIdHash: Bytes32, flags: Byte, signCount: seq<Byte>, aaguid: seq<Byte>,
    credentialId: seq<Byte>, publicKey: Item, extensions: seq<Byte>)
  {
    predicate WellFormed() {
      |signCount| == 4 && |aaguid| == 16 && |credentialId| < Pow256(2) && publicKey.WellFormed()
    }

    predicate Attested() {
      flags / ATTESTED_FLAG % 2 == 1
    }

    function Serialized(): seq<Byte>
      requires WellFormed()
    {
      rpIdHash + [flags] + signCount + aaguid + BeBytes(|credentialId|, 2) + credentialId
      + Encode(publicKey) + extensions
    }
  }

  /** The layout: the flags at 32, the credential's length at 53, the key right after the credential. */
  lemma LayoutRead(auth: AuthenticatorData)
    requires auth.WellFormed()
    ensures var s, q := auth.Serialized(), 55 + |auth.credentialId|;
            && |s| >= q && s[32] == auth.flags
            && s[53..55] == BeBytes(|auth.credentialId|, 2)
            && s[q..] == Encode(auth.publicKey) + auth.extensions
  {
    hide Encode, BeBytes, BeValue, Pow256, Item.WellFormed;
    var keyOn, len := Encode(auth.publicKey) + auth.extensions, BeBytes(|auth.credentialId|, 2);
    var front := auth.rpIdHash + [auth.flags] + auth.signCount + auth.aaguid;
    var s := auth.Serialized();
    assert s == front + (len + (auth.credentialId + keyOn));
    HasConcat(s, 0, front, len + (auth.credentialId + keyOn));
    HasConcat(s, 53, len, auth.credentialId + keyOn);
    HasConcat(s, 55, auth.credentialId, keyOn);
    assert s[32] == front[32];
  }

  /** The key bytes handed on are the encoded key and a stretch of what follows it. */
  lemma KeyBytesRead(auth: AuthenticatorData) returns (after: seq<Byte>)
    requires auth.WellFormed() && auth.Attested() && |Encode(auth.publicKey)| <= COSE_KEY_MAX
    ensures KeyBytesOf(auth.Serialized()) == Ok(Encode(auth.publicKey) + after)
  {
    hide Encode, BeBytes, BeValue, Pow256, Item.WellFormed, AuthenticatorData.Serialized;
    LayoutRead(auth);
    var key, s, q := Encode(auth.publicKey), auth.Serialized(), 55 + |auth.credentialId|;
    var rest := Clamped(s, q, q + COSE_KEY_MAX);
    assert rest == Clamped(s[q..], 0, COSE_KEY_MAX);
    after := rest[|key|..];
    assert rest == key + after;
  }

  /**
   The attested key is returned: for an attestation object whose entries come in any order and
   hold arbitrarily nested other values, and a key map that takes up at most 77 bytes.
   */
  lemma AttestedKeyReturned(attestation: Item, k: nat, auth: AuthenticatorData, after: seq<Byte>,
                            i: nat, j: nat, x: Bytes32, y: Bytes32)
    requires attestation.Map? && attestation.WellFormed() && k < |attestation.pairs|
    requires IsAuthDataKey(attestation.pairs[k].key) && attestation.pairs[k].val.ByteString?
    requires forall m :: 0 <= m < k ==> !IsAuthDataKey(attestation.pairs[m].key)
    requires auth.WellFormed() && attestation.pairs[k].val.content == auth.Serialized()
    requires HoldsPoint(auth.publicKey, i, j, x, y) && |Encode(auth.publicKey)| <= COSE_KEY_MAX
    ensures AttestedKey(Encode(attestation) + after)
         == if auth.Attested() then Ok([0x04] + x + y) else Err(NoCredential)
  {
    hide Encode, EncodePairs, P256Of, HoldsPoint, AuthDataAmong, LengthAt, IsAuthDataKey;
    var data := Encode(attestation) + after;
    assert Has(data, 0, Encode(attestation));
    var p := ItemRead(data, 0, attestation);
    AuthDataFound(data, p, attestation.pairs, k);
    if auth.Attested() {
      var tail := KeyBytesRead(auth);
      PointRead(auth.publicKey, i, j, x, y, tail);
    } else {
      assert auth.Serialized()[32] == auth.flags;
    }
  }
}
