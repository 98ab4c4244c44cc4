/**
 The field encodings behind leaves, nullifiers and proof targets. Poseidon2,
 SHA-256 and the proof verifier are abstract; what is fixed here is which vectors
 of field elements are hashed.
 */
module FieldHash {
  import opened Bytes

  /** The BN254 scalar field order. */
  const R: nat := 0x30644e72e131a029b85045b68181585d2833e84879b9709143e1f593f0000001

  const DOM_BIND: nat := 0x14fa8513f19a07697a83cf582b40cb80bb2176f890614912553b81cdff71ec81
  const DOM_NULL: nat := 0x138891cc07f52d2ec29e835298ae2120acd9573ec4a83c573885abf9710b73b2
  const DOM_AUTH: nat := 0x2886eb8be3a3ff75b86ac004fdbe5c17fd2de6ab4fd416d38683a2e0e91d9906

  const TWO_32: nat := 0x1_0000_0000
  const TWO_64: nat := 0x1_0000_0000_0000_0000
  const TWO_128: nat := 0x1_0000_0000_0000_0000_0000_0000_0000_0000
  const TWO_256: nat := TWO_128 * TWO_128

  type Fr = x: nat | x < R
  type U32 = x: nat | x < TWO_32
  type U64 = x: nat | x < TWO_64

  datatype Address = Contract(id: Bytes32) | Stellar(key: Bytes32)

  /** The libraries: hashes, and the verifier's answer on (public inputs, proof). */
  datatype Crypto = Crypto(
    poseidon2: seq<Fr> -> Fr,
    sha256: seq<Byte> -> Bytes32,
    verifies: (seq<Byte>, seq<Byte>) -> bool)

  lemma WidthFacts()
    ensures Pow256(8) == TWO_64 && Pow256(16) == TWO_128 && Pow256(32) == TWO_256
    ensures R < TWO_256 && DOM_BIND < R && DOM_NULL < R && DOM_AUTH < R
  {
    assert Pow256(4) == TWO_32;
    assert Pow256(8) == TWO_64;
    assert Pow256(12) == TWO_64 * TWO_32;
    assert Pow256(16) == TWO_128;
    assert Pow256(20) == TWO_128 * TWO_32;
    assert Pow256(24) == TWO_128 * TWO_64;
    assert Pow256(28) == TWO_128 * TWO_64 * TWO_32;
    assert Pow256(32) == TWO_256;
  }

  function Reduced(inputs: seq<nat>): (v: seq<Fr>)
    ensures |v| == |inputs|
  {
    seq(|inputs|, i requires 0 <= i < |inputs| => inputs[i] % R)
  }

  function FrBytes(x: Fr): (b: Bytes32)
    ensures BeValue(b) == x
  {
    WidthFacts();
    BeBytes(x, 32)
  }

  /** The sponge over inputs reduced into the field. */
  function P2(crypto: Crypto, inputs: seq<nat>): Bytes32 {
    FrBytes(crypto.poseidon2(Reduced(inputs)))
  }

  method HashFields(crypto: Crypto, inputs: seq<nat>) returns (out: Bytes32)
    ensures out == P2(crypto, inputs)
  {
    var v: seq<Fr> := [];
    for i := 0 to |inputs|
      invariant |v| == i && forall k :: 0 <= k < i ==> v[k] == Reduced(inputs)[k]
    {
      v := v + [inputs[i] % R];
    }
    assert v == Reduced(inputs);
    out := FrBytes(crypto.poseidon2(v));
  }

  /** Big-endian halves, each copied into the low end of a zeroed 32-byte buffer. */
  function Split16(bytes: Bytes32): (nat, nat) {
    (BeValue(Zeros(16) + bytes[..16]), BeValue(Zeros(16) + bytes[16..]))
  }

  function FieldOfU64(x: U64): nat {
    WidthFacts();
    BeValue(Zeros(24) + BeBytes(x, 8))
  }

  function WrapInputs(id: Bytes32, commitment: Bytes32): seq<nat> {
    var (hi, lo) := Split16(id);
    [DOM_BIND, hi, lo, BeValue(commitment)]
  }

  function NullifierInputs(id: Bytes32, secret: Bytes32): seq<nat> {
    var (hi, lo) := Split16(id);
    [DOM_NULL, hi, lo, BeValue(secret)]
  }

  predicate Canonical(commitment: Bytes32) {
    BeValue(commitment) < R
  }

  /** Everything a proof target commits to; the passphrase enters as its SHA-256. */
  datatype AuthFields = AuthFields(
    action: U32, account: Bytes32, passphraseHash: Bytes32, controller: Bytes32,
    pubkey: Bytes65, nonce: U64, timelock: U32)

  function AuthInputs(f: AuthFields): seq<nat> {
    var (acctHi, acctLo) := Split16(f.account);
    var (npassHi, npassLo) := Split16(f.passphraseHash);
    var (ctrlHi, ctrlLo) := Split16(f.controller);
    var (xHi, xLo) := Split16(f.pubkey[1..33]);
    var (yHi, yLo) := Split16(f.pubkey[33..]);
    [DOM_AUTH, FieldOfU64(f.action), acctHi, acctLo, npassHi, npassLo, ctrlHi, ctrlLo,
     FieldOfU64(f.pubkey[0]), xHi, xLo, yHi, yLo, FieldOfU64(f.nonce), FieldOfU64(f.timelock)]
  }

  function AuthHash(crypto: Crypto, f: AuthFields): Bytes32 {
    P2(crypto, AuthInputs(f))
  }

  // ---- what the vectors determine ----

  lemma Split16Values(bytes: Bytes32)
    ensures Split16(bytes) == (BeValue(bytes[..16]), BeValue(bytes[16..]))
    ensures Split16(bytes).0 < TWO_128 && Split16(bytes).1 < TWO_128
  {
    BeValueZeroPadded(16, bytes[..16]);
    BeValueZeroPadded(16, bytes[16..]);
    BeValueBound(bytes[..16]);
    BeValueBound(bytes[16..]);
    WidthFacts();
  }

  lemma SplitBelowR(bytes: Bytes32)
    ensures Split16(bytes).0 < R && Split16(bytes).1 < R
  {
    Split16Values(bytes);
  }

  lemma Split16Injective(a: Bytes32, b: Bytes32)
    requires Split16(a) == Split16(b)
    ensures a == b
  {
    Split16Values(a);
    Split16Values(b);
    BeValueInjective(a[..16], b[..16]);
    BeValueInjective(a[16..], b[16..]);
    assert a == a[..16] + a[16..] && b == b[..16] + b[16..];
  }

  lemma FieldOfU64Value(x: U64)
    ensures FieldOfU64(x) == x
  {
    WidthFacts();
    BeValueZeroPadded(24, BeBytes(x, 8));
  }

  /** No reduction takes place on a leaf that the pool accepts. */
  lemma AcceptedLeafUnreduced(id: Bytes32, commitment: Bytes32)
    requires Canonical(commitment)
    ensures Reduced(WrapInputs(id, commitment)) == WrapInputs(id, commitment)
  {
    hide Split16;
    SplitBelowR(id);
    WidthFacts();
  }

  /** Accepted (account, commitment) pairs are hashed from different vectors. */
  lemma LeafBinding(id: Bytes32, commitment: Bytes32, id': Bytes32, commitment': Bytes32)
    requires Canonical(commitment) && Canonical(commitment')
    requires Reduced(WrapInputs(id, commitment)) == Reduced(WrapInputs(id', commitment'))
    ensures id == id' && commitment == commitment'
  {
    var v, w := WrapInputs(id, commitment), WrapInputs(id', commitment');
    AcceptedLeafUnreduced(id, commitment);
    AcceptedLeafUnreduced(id', commitment');
    assert v[1] == w[1] && v[2] == w[2] && v[3] == w[3];
    Split16Injective(id, id');
    BeValueInjective(commitment, commitment');
  }

  /** A leaf is never hashed from the vector of a nullifier. */
  lemma LeafIsNoNullifier(id: Bytes32, commitment: Bytes32, id': Bytes32, secret: Bytes32)
    ensures Reduced(WrapInputs(id, commitment)) != Reduced(NullifierInputs(id', secret))
  {
    hide Split16;
    WidthFacts();
    assert Reduced(WrapInputs(id, commitment))[0] == DOM_BIND;
    assert Reduced(NullifierInputs(id', secret))[0] == DOM_NULL;
  }

  /** Without the canonical check `c` and `c + R` would become one leaf. */
  lemma CanonicalCheckNeeded(id: Bytes32, c: nat)
    requires c < R && c + R < TWO_256
    ensures Pow256(32) == TWO_256
    ensures var low, high := BeBytes(c, 32), BeBytes(c + R, 32);
            low != high && Canonical(low) && !Canonical(high) &&
            Reduced(WrapInputs(id, low)) == Reduced(WrapInputs(id, high))
  {
    hide Split16;
    WidthFacts();
    assert (c + R) % R == c % R;
  }

  /** The two proof-target vectors agree, as hashed, only when every field does. */
  lemma AuthInputsInjective(f: AuthFields, g: AuthFields)
    requires Reduced(AuthInputs(f)) == Reduced(AuthInputs(g))
    ensures f == g
  {
    hide Split16, FieldOfU64;
    AuthInputsUnreduced(f);
    AuthInputsUnreduced(g);
    AuthInputsScalars(f);
    AuthInputsScalars(g);
    var v, w := AuthInputs(f), AuthInputs(g);
    assert forall i :: 0 <= i < 15 ==> v[i] == w[i];
    assert v[1] == w[1] && v[2] == w[2] && v[3] == w[3] && v[4] == w[4] && v[5] == w[5];
    assert v[6] == w[6] && v[7] == w[7] && v[8] == w[8] && v[13] == w[13] && v[14] == w[14];
    assert v[9] == w[9] && v[10] == w[10] && v[11] == w[11] && v[12] == w[12];
    Split16Injective(f.account, g.account);
    Split16Injective(f.passphraseHash, g.passphraseHash);
    Split16Injective(f.controller, g.controller);
    Split16Injective(f.pubkey[1..33], g.pubkey[1..33]);
    Split16Injective(f.pubkey[33..], g.pubkey[33..]);
    assert f.pubkey == [f.pubkey[0]] + f.pubkey[1..33] + f.pubkey[33..];
    assert g.pubkey == [g.pubkey[0]] + g.pubkey[1..33] + g.pubkey[33..];
  }

  lemma AuthInputsUnreduced(f: AuthFields)
    ensures Reduced(AuthInputs(f)) == AuthInputs(f)
  {
    hide Split16, FieldOfU64, Zeros;
    SplitBelowR(f.account);
    SplitBelowR(f.passphraseHash);
    SplitBelowR(f.controller);
    SplitBelowR(f.pubkey[1..33]);
    SplitBelowR(f.pubkey[33..]);
    FieldOfU64Value(f.action);
    FieldOfU64Value(f.pubkey[0]);
    FieldOfU64Value(f.nonce);
    FieldOfU64Value(f.timelock);
    WidthFacts();
  }

  lemma AuthInputsScalars(f: AuthFields)
    ensures AuthInputs(f)[1] == f.action && AuthInputs(f)[8] == f.pubkey[0]
    ensures AuthInputs(f)[13] == f.nonce && AuthInputs(f)[14] == f.timelock
  {
    hide Split16, FieldOfU64;
    FieldOfU64Value(f.action);
    FieldOfU64Value(f.pubkey[0]);
    FieldOfU64Value(f.nonce);
    FieldOfU64Value(f.timelock);
  }

  // ---- the vectors, position by position ----

  function High(s: Bytes32): nat {
    BeValue(s[..16])
  }

  function Low(s: Bytes32): nat {
    BeValue(s[16..])
  }

  /** What is hashed for an accepted leaf. */
  lemma LeafVector(id: Bytes32, commitment: Bytes32)
    requires Canonical(commitment)
    ensures Reduced(WrapInputs(id, commitment)) == [DOM_BIND, High(id), Low(id), BeValue(commitment)]
  {
    AcceptedLeafUnreduced(id, commitment);
    hide Split16;
    Split16Values(id);
  }

  /** What is hashed for a proof target: fifteen elements, in the order of the circuit. */
  lemma AuthVector(f: AuthFields)
    ensures Reduced(AuthInputs(f)) ==
      [DOM_AUTH, f.action, High(f.account), Low(f.account), High(f.passphraseHash), Low(f.passphraseHash),
       High(f.controller), Low(f.controller), f.pubkey[0],
       High(f.pubkey[1..33]), Low(f.pubkey[1..33]), High(f.pubkey[33..]), Low(f.pubkey[33..]), f.nonce, f.timelock]
  {
    hide Split16, FieldOfU64, High, Low;
    AuthInputsUnreduced(f);
    AuthInputsScalars(f);
    Halves(f.account);
    Halves(f.passphraseHash);
    Halves(f.controller);
    Halves(f.pubkey[1..33]);
    Halves(f.pubkey[33..]);
  }

  lemma Halves(s: Bytes32)
    ensures Split16(s) == (High(s), Low(s))
  {
    hide Split16;
    Split16Values(s);
  }

  /** The contract's nullifier vector is the circuit's, for the witness that holds the account and the secret. */
  lemma NullifierVector(id: Bytes32, secret: Bytes32, w: Witness)
    requires w.acctHi == High(id) && w.acctLo == Low(id) && w.secret == BeValue(secret)
    ensures NullifierInputs(id, secret) == WitnessNullifier(w)
  {
    hide Split16, High, Low;
    Halves(id);
  }

  // ---- the circuit ----

  /** A prover's private input, in the circuit's order; `rest` holds what follows the account in the target. */
  datatype Witness = Witness(secret: Fr, acctHi: Fr, acctLo: Fr, action: Fr, rest: seq<Fr>)

  function WitnessNullifier(w: Witness): seq<nat> {
    [DOM_NULL, w.acctHi, w.acctLo, w.secret]
  }

  function WitnessAuth(w: Witness): seq<nat> {
    [DOM_AUTH, w.action, w.acctHi, w.acctLo] + w.rest
  }

  /**
   The circuit's nullifier and target constraints; its membership constraint is `Tree.PathRoot`. The
   verifier reads its public inputs into the field, so a 32-byte string counts as its residue.
   */
  ghost predicate Satisfies(crypto: Crypto, w: Witness, nullifier: Bytes32, authHash: Bytes32) {
    && crypto.poseidon2(Reduced(WitnessNullifier(w))) == BeValue(nullifier) % R
    && crypto.poseidon2(Reduced(WitnessAuth(w))) == BeValue(authHash) % R
  }

  ghost predicate Collision(crypto: Crypto, v: seq<nat>, w: seq<nat>) {
    Reduced(v) != Reduced(w) && crypto.poseidon2(Reduced(v)) == crypto.poseidon2(Reduced(w))
  }

  /** Among two proofs and their targets, one of three given pairs of vectors is a Poseidon2 collision. */
  ghost predicate Collides(crypto: Crypto, w: Witness, f: AuthFields, w': Witness, f': AuthFields) {
    || Collision(crypto, WitnessNullifier(w), WitnessNullifier(w'))
    || Collision(crypto, WitnessAuth(w), AuthInputs(f))
    || Collision(crypto, WitnessAuth(w'), AuthInputs(f'))
  }

  /** The target that a satisfying witness commits to is the one hashed, or their vectors collide. */
  lemma TargetAccount(crypto: Crypto, nullifier: Bytes32, w: Witness, f: AuthFields)
    requires Satisfies(crypto, w, nullifier, AuthHash(crypto, f))
    ensures Split16(f.account) == (w.acctHi, w.acctLo) || Collision(crypto, WitnessAuth(w), AuthInputs(f))
  {
    hide AuthInputs, WitnessAuth, WitnessNullifier, BeValue, Reduced;
    if Reduced(WitnessAuth(w)) == Reduced(AuthInputs(f)) {
      SameVectorSameAccount(w, f);
    }
  }

  lemma SameNullifierVector(w: Witness, w': Witness)
    requires Reduced(WitnessNullifier(w)) == Reduced(WitnessNullifier(w'))
    ensures w.acctHi == w'.acctHi && w.acctLo == w'.acctLo
  {
    assert Reduced(WitnessNullifier(w))[1] == Reduced(WitnessNullifier(w'))[1];
    assert Reduced(WitnessNullifier(w))[2] == Reduced(WitnessNullifier(w'))[2];
  }

  lemma SameVectorSameAccount(w: Witness, f: AuthFields)
    requires Reduced(WitnessAuth(w)) == Reduced(AuthInputs(f))
    ensures Split16(f.account) == (w.acctHi, w.acctLo)
  {
    hide Split16, FieldOfU64, BeValue;
    AuthInputsUnreduced(f);
    assert Reduced(WitnessAuth(w))[2] == AuthInputs(f)[2] && Reduced(WitnessAuth(w))[3] == AuthInputs(f)[3];
  }

  /**
   Two accepted proofs whose nullifiers are one field element name one account, unless one of three
   given pairs of vectors is a Poseidon2 collision.
   */
  lemma SharedNullifierNamesOneAccount(
    crypto: Crypto, nullifier: Bytes32, w: Witness, f: AuthFields, nullifier': Bytes32, w': Witness, f': AuthFields)
    requires Satisfies(crypto, w, nullifier, AuthHash(crypto, f))
    requires Satisfies(crypto, w', nullifier', AuthHash(crypto, f'))
    requires BeValue(nullifier) % R == BeValue(nullifier') % R
    ensures f.account == f'.account || Collides(crypto, w, f, w', f')
  {
    hide Split16, AuthInputs, WitnessAuth, WitnessNullifier, AuthHash, Reduced, BeValue;
    TargetAccount(crypto, nullifier, w, f);
    TargetAccount(crypto, nullifier', w', f');
    if Reduced(WitnessNullifier(w)) == Reduced(WitnessNullifier(w')) {
      SameNullifierVector(w, w');
      if Split16(f.account) == Split16(f'.account) {
        Split16Injective(f.account, f'.account);
      }
    }
  }

  // ---- one credential, one nullifier? ----

  /** The nullifier that the holder of an account's secret is meant to show. */
  function NullifierOf(crypto: Crypto, w: Witness): Bytes32 {
    P2(crypto, WitnessNullifier(w))
  }

  /** A nullifier that satisfies the circuit is the credential's own exactly when it is canonical. */
  lemma OwnNullifierIffCanonical(crypto: Crypto, w: Witness, nullifier: Bytes32, authHash: Bytes32)
    requires Satisfies(crypto, w, nullifier, authHash)
    ensures nullifier == NullifierOf(crypto, w) <==> Canonical(nullifier)
  {
    hide BeValue;
    var own := NullifierOf(crypto, w);
    assert BeValue(own) == BeValue(nullifier) % R;
    if Canonical(nullifier) {
      BeValueInjective(nullifier, own);
    }
  }

  /** Every canonical nullifier has another string beside it that satisfies the circuit just as well. */
  lemma NullifierHasAlias(crypto: Crypto, w: Witness, nullifier: Bytes32, authHash: Bytes32)
    returns (alias: Bytes32)
    requires Satisfies(crypto, w, nullifier, authHash) && Canonical(nullifier)
    ensures BeValue(alias) == BeValue(nullifier) + R && alias != nullifier && !Canonical(alias)
    ensures Satisfies(crypto, w, alias, authHash)
  {
    hide BeValue, BeBytes;
    WidthFacts();
    assert 2 * R < TWO_256;
    alias := BeBytes(BeValue(nullifier) + R, 32);
    assert (BeValue(nullifier) + R) % R == BeValue(nullifier) % R;
  }
}
