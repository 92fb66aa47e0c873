/** Sealed records and what binds them (auth/seal.go, resealRow of auth/rotate.go), over an ideal AEAD. */
module Sealing {
  import opened Octets
  import opened KeyRings
  import opened Text
  import opened Decimals

  const NONCE_LEN := 24

  const NT_HASH_LEN := 16

  /** What a ciphertext is bound to besides the key version. */
  datatype Binding =
    | BindNT(user: int)
    | BindTOTP(user: int)
    | BindShareLink(tokenHash: bytes)
    | BindConfig(name: bytes)
    | BindPresentation(purpose: bytes)

  datatype SealError = BadAccount | CiphertextTooShort | OpenFailed | WrongLength

  function Prefix(b: Binding): bytes {
    match b
    case BindNT(_) => [115, 109, 98, 95, 110, 116]         // "smb_nt"
    case BindTOTP(_) => [116, 111, 116, 112]               // "totp"
    case BindShareLink(_) => [115, 104, 108, 105, 110, 107] // "shlink"
    case BindConfig(_) => [99, 111, 110, 102, 105, 103]    // "config"
    case BindPresentation(_) => [112, 114, 101, 115]       // "pres"
  }

  /** Account ids are int64; a negative one cannot be bound. */
  predicate Bindable(b: Binding) {
    (b.BindNT? || b.BindTOTP?) ==> 0 <= b.user < 0x8000_0000_0000_0000
  }

  function Identity(b: Binding): bytes
    requires Bindable(b)
  {
    match b
    case BindNT(user) => LE(user, 8)
    case BindTOTP(user) => LE(user, 8)
    case BindShareLink(hash) => hash
    case BindConfig(name) => name
    case BindPresentation(purpose) => purpose
  }

  /** `aadUser`, `aadBytes` and `aadName`: prefix, record identity, key version. */
  function Aad(b: Binding, v: Version): (res: Result<bytes, SealError>)
    ensures res.Ok? <==> Bindable(b)
  {
    if !Bindable(b) then Err(BadAccount) else Ok(Prefix(b) + Identity(b) + LE(v, 4))
  }

  /** No two records, kinds or versions share additional data. */
  lemma AadInjective(b: Binding, v: Version, c: Binding, w: Version)
    requires Bindable(b) && Bindable(c) && Aad(b, v) == Aad(c, w)
    ensures b == c && v == w
  {
    var x, y := Aad(b, v).value, Aad(c, w).value;
    assert x[0] == Prefix(b)[0] && y[0] == Prefix(c)[0];
    assert x[1] == Prefix(b)[1] && y[1] == Prefix(c)[1];
    var p := |Prefix(b)|;
    assert Prefix(b) == Prefix(c);
    assert x[|x| - 4..] == LE(v, 4) && y[|y| - 4..] == LE(w, 4);
    assert x[p..|x| - 4] == Identity(b) && y[p..|y| - 4] == Identity(c);
    SpanValues();
    LEInjective(v, w, 4);
    if b.BindNT? || b.BindTOTP? {
      LEInjective(b.user, c.user, 8);
    }
  }

  /** A stored ciphertext: one made by `sealWith`, or bytes nobody sealed. */
  datatype Blob = Sealed(key: Key, aad: bytes, plain: bytes) | Foreign(raw: bytes)

  /** `openWith`: an ideal AEAD opens exactly under the key and data it was sealed with. */
  function OpenWith(key: Key, blob: Blob, aad: bytes): Result<bytes, SealError> {
    match blob
    case Foreign(raw) => if |raw| < NONCE_LEN then Err(CiphertextTooShort) else Err(OpenFailed)
    case Sealed(k, a, plain) => if k == key && a == aad then Ok(plain) else Err(OpenFailed)
  }

  function Seal(key: Key, b: Binding, v: Version, plain: bytes): Result<Blob, SealError> {
    match Aad(b, v)
    case Err(e) => Err(e)
    case Ok(aad) => Ok(Sealed(key, aad, plain))
  }

  function Open(key: Key, b: Binding, v: Version, blob: Blob): Result<bytes, SealError> {
    match Aad(b, v)
    case Err(e) => Err(e)
    case Ok(aad) =>
      match OpenWith(key, blob, aad)
      case Err(e) => Err(e)
      case Ok(plain) => if b.BindNT? && |plain| != NT_HASH_LEN then Err(WrongLength) else Ok(plain)
  }

  /** A ciphertext opens at its own key, record and version, and nowhere else. */
  lemma SealedIsBound(key: Key, b: Binding, v: Version, plain: bytes, key': Key, c: Binding, w: Version)
    requires Seal(key, b, v, plain).Ok?
    requires b.BindNT? ==> |plain| == NT_HASH_LEN
    ensures var got := Open(key', c, w, Seal(key, b, v, plain).value);
            got == if key == key' && b == c && v == w then Ok(plain)
                      else if Bindable(c) then Err(OpenFailed) else Err(BadAccount)
  {
    if Bindable(c) && Aad(b, v) == Aad(c, w) {
      AadInjective(b, v, c, w);
    }
  }

  /** One sealed row; the id is the table and the column that names the row in it. */
  datatype RowId =
    | SMBRow(user: int)
    | TOTPRow(user: int)
    | LinkRow(link: int)
    | ConfigRow(name: bytes)
    | ShareRow(share: uint32)

  /** `shareSecretName`: a share's backend credential is bound like a configuration secret of this name. */
  function ShareSecretName(share: uint32): bytes {
    Ascii("share.") + Ascii(Decimal(share)) + Ascii(".secret")
  }

  function Ascii(s: Text): bytes {
    seq(|s|, i requires 0 <= i < |s| => s[i] as int)
  }

  datatype SealedRow = SealedRow(id: RowId, tokenHash: bytes, ciphertext: Blob, keyVer: Version)

  function BindingOf(row: SealedRow): Binding {
    match row.id
    case SMBRow(user) => BindNT(user)
    case TOTPRow(user) => BindTOTP(user)
    case LinkRow(_) => BindShareLink(row.tokenHash)
    case ConfigRow(name) => BindConfig(name)
    case ShareRow(share) => BindConfig(ShareSecretName(share))
  }

  function OpenRow(row: SealedRow, key: Key): Result<bytes, SealError> {
    Open(key, BindingOf(row), row.keyVer, row.ciphertext)
  }

  /** A record as it is sealed, before it is stored. */
  function MintedRow(id: RowId, tokenHash: bytes, plain: bytes, key: Key, v: Version): SealedRow
    requires Bindable(BindingOf(SealedRow(id, tokenHash, Foreign([]), v)))
  {
    var row := SealedRow(id, tokenHash, Foreign([]), v);
    row.(ciphertext := Seal(key, BindingOf(row), v, plain).value)
  }

  /** The data a ciphertext is bound to, as bytes: the kind's name, the identity and the key version. */
  lemma AadLayout(user: nat, id: bytes, v: Version)
    requires user < 0x8000_0000_0000_0000
    ensures Aad(BindNT(user), v) == Ok(Ascii("smb_nt") + LE(user, 8) + LE(v, 4))
    ensures Aad(BindTOTP(user), v) == Ok(Ascii("totp") + LE(user, 8) + LE(v, 4))
    ensures Aad(BindShareLink(id), v) == Ok(Ascii("shlink") + id + LE(v, 4))
    ensures Aad(BindConfig(id), v) == Ok(Ascii("config") + id + LE(v, 4))
    ensures Aad(BindPresentation(id), v) == Ok(Ascii("pres") + id + LE(v, 4))
  {
    assert Ascii("smb_nt") == [115, 109, 98, 95, 110, 116];
    assert Ascii("totp") == [116, 111, 116, 112];
    assert Ascii("shlink") == [115, 104, 108, 105, 110, 107];
    assert Ascii("config") == [99, 111, 110, 102, 105, 103];
    assert Ascii("pres") == [112, 114, 101, 115];
  }

  // ---- What rows a ciphertext opens as.

  /** The row belongs to an account whose id a record can be sealed for, or to none. */
  predicate Accountable(id: RowId) {
    (id.SMBRow? || id.TOTPRow?) ==> 0 <= id.user < 0x8000_0000_0000_0000
  }

  lemma BindableExactlyWhen(row: SealedRow)
    ensures Bindable(BindingOf(row)) <==> Accountable(row.id)
  {
  }

  /** The name a share's credential has among configuration secrets: `share.<id>.secret`. */
  predicate NamesShare(name: bytes, share: uint32) {
    name == Ascii("share.") + Ascii(Decimal(share)) + Ascii(".secret")
  }

  /**
   Two rows stand for one record: the same secret of the same account, links of one token, one
   configuration name, one share, or a share and the configuration secret of its name.
   */
  predicate SameRecord(a: RowId, aHash: bytes, b: RowId, bHash: bytes) {
    match a
    case SMBRow(user) => b == SMBRow(user)
    case TOTPRow(user) => b == TOTPRow(user)
    case LinkRow(_) => b.LinkRow? && aHash == bHash
    case ConfigRow(name) => b == ConfigRow(name) || (b.ShareRow? && NamesShare(name, b.share))
    case ShareRow(share) => b == ShareRow(share) || (b.ConfigRow? && NamesShare(b.name, share))
  }

  lemma AsciiInjective(s: Text, t: Text)
    requires Ascii(s) == Ascii(t)
    ensures s == t
  {
    forall k | 0 <= k < |s| ensures |s| == |t| && s[k] == t[k] {
      assert |Ascii(s)| == |Ascii(t)| && Ascii(s)[k] == Ascii(t)[k];
    }
    assert |Ascii(s)| == |Ascii(t)|;
  }

  lemma ShareNamesDiffer(a: uint32, b: uint32)
    requires ShareSecretName(a) == ShareSecretName(b)
    ensures a == b
  {
    var p, x, y := Ascii("share."), Ascii(Decimal(a)), Ascii(Decimal(b));
    assert |x| == |y|;
    assert ShareSecretName(a)[|p|..|p| + |x|] == x && ShareSecretName(b)[|p|..|p| + |y|] == y;
    AsciiInjective(Decimal(a), Decimal(b));
    DecimalInjective(a, b);
  }

  lemma SameBindingExactlyWhen(a: SealedRow, b: SealedRow)
    ensures BindingOf(a) == BindingOf(b) <==> SameRecord(a.id, a.tokenHash, b.id, b.tokenHash)
  {
    if a.id.ShareRow? && b.id.ShareRow? && ShareSecretName(a.id.share) == ShareSecretName(b.id.share) {
      ShareNamesDiffer(a.id.share, b.id.share);
    }
  }

  /**
   A ciphertext opens as a row under a key exactly when it was sealed under that key, at that row's
   version, for the record the row stands for; then it says what was sealed.
   */
  lemma OpensExactlyAsSealed(id: RowId, hash: bytes, plain: bytes, key: Key, v: Version, id': RowId, hash': bytes,
          key': Key, w: Version)
    requires Accountable(id)
    ensures Bindable(BindingOf(SealedRow(id, hash, Foreign([]), v)))
    ensures var blob := MintedRow(id, hash, plain, key, v).ciphertext;
            OpenRow(SealedRow(id', hash', blob, w), key') ==
              if key == key' && v == w && SameRecord(id, hash, id', hash') then
                (if id.SMBRow? && |plain| != 16 then Err(WrongLength) else Ok(plain))
              else Err(if Accountable(id') then OpenFailed else BadAccount)
  {
    var row, q := SealedRow(id, hash, Foreign([]), v), SealedRow(id', hash', Foreign([]), w);
    BindableExactlyWhen(row);
    BindableExactlyWhen(q);
    SameBindingExactlyWhen(row, q);
    var blob := MintedRow(id, hash, plain, key, v).ciphertext;
    assert BindingOf(SealedRow(id', hash', blob, w)) == BindingOf(q);
    if Accountable(id') && Aad(BindingOf(row), v) == Aad(BindingOf(q), w) {
      AadInjective(BindingOf(row), v, BindingOf(q), w);
    }
  }

  /** Bytes nobody sealed open as no row; those too short to hold a nonce are told apart. */
  lemma ForeignOpensNowhere(id: RowId, hash: bytes, raw: bytes, v: Version, key: Key)
    ensures OpenRow(SealedRow(id, hash, Foreign(raw), v), key) ==
              Err(if !Accountable(id) then BadAccount else if |raw| < 24 then CiphertextTooShort else OpenFailed)
  {
    BindableExactlyWhen(SealedRow(id, hash, Foreign(raw), v));
  }

  /** A row that opens under one key opens under no other. */
  lemma OneKeyOnly(row: SealedRow, key: Key, other: Key)
    requires OpenRow(row, key).Ok? && key != other
    ensures OpenRow(row, other).Err?
  {
  }

  /** `resealRow`. */
  function ResealRow(row: SealedRow, oldKey: Key, newKey: Key, newVer: Version): Result<Blob, SealError> {
    match OpenRow(row, oldKey)
    case Err(e) => Err(e)
    case Ok(plain) => Seal(newKey, BindingOf(row), newVer, plain)
  }

  /** The row as the store rewrites it. */
  function Moved(row: SealedRow, blob: Blob, newVer: Version): SealedRow {
    row.(ciphertext := blob, keyVer := newVer)
  }

  /** A row is moved exactly when it opens, and the move keeps what it says and ends its old reading. */
  lemma ResealKeepsMeaning(row: SealedRow, oldKey: Key, newKey: Key, newVer: Version)
    ensures var res := ResealRow(row, oldKey, newKey, newVer);
            && (res.Ok? <==> OpenRow(row, oldKey).Ok?)
            && (res.Ok? ==>
                  && OpenRow(Moved(row, res.value, newVer), newKey) == OpenRow(row, oldKey)
                  && (oldKey != newKey ==> OpenRow(Moved(row, res.value, newVer), oldKey).Err?)
                  && (row.keyVer != newVer ==> OpenRow(row.(ciphertext := res.value), newKey).Err?))
  {
    if row.keyVer != newVer && OpenRow(row, oldKey).Ok? {
      var b := BindingOf(row);
      SealedIsBound(newKey, b, newVer, OpenRow(row, oldKey).value, newKey, b, row.keyVer);
    }
  }
}
