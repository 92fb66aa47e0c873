/** The versioned master-key ring and its file format (auth/masterkey.go). */
module KeyRings {
  import opened Octets

  const KEY_LEN := 32

  type Key = k: bytes | |k| == KEY_LEN witness seq(KEY_LEN, _ => 0)

  type Version = uint32

  /** Every key the process can decrypt with, in file order, and the newest version. */
  datatype KeyRing = KeyRing(keys: map<Version, Key>, order: seq<Version>, newest: Version) {

    /** Order, key map and newest describe one non-empty set of versions. */
    ghost predicate Valid() {
      && order != []
      && (forall i, j :: 0 <= i < j < |order| ==> order[i] != order[j])
      && (forall v :: v in order <==> v in keys)
      && newest in order
      && (forall v :: v in order ==> v <= newest)
    }

    predicate Has(v: Version) { v in keys }
  }

  datatype RingError =
    | NotARing
    | UnexpectedEOF
    | DuplicateVersion(version: Version)
    | NoKeys
    | TrailingBytes
    | TooManyKeys
    | CounterWraps

  /** A ring of one key. */
  function Single(v: Version, k: Key): (r: KeyRing)
    ensures r.Valid()
  {
    KeyRing(map[v := k], [v], v)
  }

  lemma AppendedValid(r: KeyRing, next: Version, minted: Key)
    requires r.Valid() && next > r.newest
    ensures KeyRing(r.keys[next := minted], r.order + [next], next).Valid()
    ensures next !in r.keys
  {
    assert next !in r.order;
    var order := r.order + [next];
    forall i, j | 0 <= i < j < |order| ensures order[i] != order[j] {
      assert order[i] in r.order;
    }
  }

  /** `withNewKey`: one fresh key, one version past the newest. */
  function WithNewKey(r: KeyRing, minted: Key): (res: Result<KeyRing, RingError>)
    requires r.Valid()
    ensures res.Err? <==> r.newest == 0xFFFF_FFFF
    ensures res.Ok? ==> res.value.Valid() && res.value.newest == r.newest + 1 && !r.Has(res.value.newest)
    ensures res.Ok? ==> forall v :: v in r.keys ==> v in res.value.keys && res.value.keys[v] == r.keys[v]
  {
    var next := (r.newest + 1) % 0x1_0000_0000;
    if next < r.newest then
      Err(CounterWraps)
    else
      var ext := KeyRing(r.keys[next := minted], r.order + [next], next);
      AppendedValid(r, next, minted);
      Ok(ext)
  }

  /** `compactTo`: the ring holding only one of the versions. */
  function CompactTo(r: KeyRing, v: Version): (res: Option<KeyRing>)
    ensures res.Some? <==> r.Has(v)
    ensures res.Some? ==> res.value.Valid() && res.value == Single(v, r.keys[v])
  {
    if v in r.keys then Some(Single(v, r.keys[v])) else None
  }

  const MAGIC: bytes := [83, 67, 77, 75, 69, 89, 82, 78, 71, 49, 10] // "SCMKEYRNG1\n"

  const ENTRY_LEN := 36 // a version and a key

  function Entry(v: Version, k: Key): (b: bytes)
    ensures |b| == ENTRY_LEN
  {
    BE32(v) + k
  }

  /** The entries of a ring in file order. */
  function Entries(order: seq<Version>, keys: map<Version, Key>): (b: bytes)
    requires forall v :: v in order ==> v in keys
    ensures |b| == |order| * 36
  {
    if order == [] then [] else Entry(order[0], keys[order[0]]) + Entries(order[1..], keys)
  }

  /** The file a ring is written to. */
  function Encode(r: KeyRing): (b: bytes)
    requires forall v :: v in r.order ==> v in r.keys
    requires |r.order| <= 0xFFFF
    ensures |b| == |MAGIC| + 2 + |r.order| * 36
  {
    MAGIC + BE16(|r.order|) + Entries(r.order, r.keys)
  }

  /** `marshal`. */
  method Marshal(r: KeyRing) returns (res: Result<bytes, RingError>)
    requires r.Valid()
    ensures res == if |r.order| <= 0xFFFF then Ok(Encode(r)) else Err(TooManyKeys)
  {
    if |r.order| > 0xFFFF {
      return Err(TooManyKeys);
    }
    var out := MAGIC + BE16(|r.order|);
    assert r.order[0..] == r.order;
    for i := 0 to |r.order|
      invariant out + Entries(r.order[i..], r.keys) == Encode(r)
    {
      ghost var rest := Entries(r.order[i + 1..], r.keys);
      var e := Entry(r.order[i], r.keys[r.order[i]]);
      assert r.order[i..][1..] == r.order[i + 1..];
      assert out + (e + rest) == (out + e) + rest;
      out := out + e;
    }
    assert r.order[|r.order|..] == [] && out + [] == out;
    res := Ok(out);
  }

  /** The ring `r` with one more entry read. */
  function Extend(r: KeyRing, v: Version, k: Key): KeyRing {
    KeyRing(r.keys[v := k], r.order + [v], if v > r.newest then v else r.newest)
  }

  /** What the entry loop of `parseKeyRing` computes from the bytes left and the ring so far. */
  function DecodeEntries(b: bytes, count: nat, r: KeyRing): (res: Result<KeyRing, RingError>)
    decreases count
  {
    if count == 0 then
      if r.order == [] then Err(NoKeys) else if b != [] then Err(TrailingBytes) else Ok(r)
    else if |b| < ENTRY_LEN then
      Err(UnexpectedEOF)
    else
      var v := FromBE32(b);
      if v in r.keys then
        Err(DuplicateVersion(v))
      else
        DecodeEntries(b[ENTRY_LEN..], count - 1, Extend(r, v, b[4..ENTRY_LEN]))
  }

  const EMPTY := KeyRing(map[], [], 0)

  /** What `parseKeyRing` answers for a file. */
  function Decode(b: bytes): (res: Result<KeyRing, RingError>) {
    if |b| == KEY_LEN then
      Ok(Single(1, b))
    else if !(MAGIC <= b) then
      Err(NotARing)
    else if |b| < |MAGIC| + 2 then
      Err(UnexpectedEOF)
    else
      DecodeEntries(b[|MAGIC| + 2..], FromBE16(b[|MAGIC|..]), EMPTY)
  }

  /** `parseKeyRing`. */
  method ParseKeyRing(file: bytes) returns (res: Result<KeyRing, RingError>)
    ensures res == Decode(file)
  {
    if |file| == KEY_LEN {
      return Ok(Single(1, file));
    }
    if !(MAGIC <= file) {
      return Err(NotARing);
    }
    var b := file[|MAGIC|..];
    if |b| < 2 {
      return Err(UnexpectedEOF);
    }
    var count := FromBE16(b);
    b := b[2..];
    assert b == file[|MAGIC| + 2..];

    res := ParseEntries(b, count);
  }

  method ParseEntries(entries: bytes, count: nat) returns (res: Result<KeyRing, RingError>)
    ensures res == DecodeEntries(entries, count, EMPTY)
  {
    var b, r := entries, EMPTY;
    for i := 0 to count
      invariant DecodeEntries(b, count - i, r) == DecodeEntries(entries, count, EMPTY)
    {
      if |b| < ENTRY_LEN {
        return Err(UnexpectedEOF);
      }
      var ver := FromBE32(b);
      if ver in r.keys {
        return Err(DuplicateVersion(ver));
      }
      r := Extend(r, ver, b[4..ENTRY_LEN]);
      b := b[ENTRY_LEN..];
    }
    if r.order == [] {
      return Err(NoKeys);
    }
    if b != [] {
      return Err(TrailingBytes);
    }
    res := Ok(r);
  }

  /** A ring under construction: `Valid` except that it may still be empty. */
  ghost predicate Partial(r: KeyRing) {
    if r.order == [] then r == EMPTY else r.Valid()
  }

  lemma PartialExtends(r: KeyRing, v: Version, k: Key)
    requires Partial(r) && v !in r.keys
    ensures Extend(r, v, k).Valid()
  {
    var e := Extend(r, v, k);
    assert e.order[|r.order|] == v;
    assert forall w :: w in e.order <==> w in r.order || w == v;
  }

  lemma {:induction false} EntriesSnoc(order: seq<Version>, v: Version, keys: map<Version, Key>)
    requires forall w :: w in order ==> w in keys
    requires v in keys
    ensures Entries(order + [v], keys) == Entries(order, keys) + Entry(v, keys[v])
  {
    if order == [] {
      assert [v][1..] == [];
    } else {
      EntriesSnoc(order[1..], v, keys);
      assert (order + [v])[1..] == order[1..] + [v];
      Associates(Entry(order[0], keys[order[0]]), Entries(order[1..], keys), Entry(v, keys[v]));
    }
  }

  lemma {:induction false} EntriesFrame(order: seq<Version>, keys: map<Version, Key>, more: map<Version, Key>)
    requires forall v :: v in order ==> v in keys && v in more && keys[v] == more[v]
    ensures Entries(order, keys) == Entries(order, more)
  {
    if order != [] {
      EntriesFrame(order[1..], keys, more);
    }
  }

  /** The first entry of a buffer is what the loop reads from it. */
  lemma EntryRead(v: Version, k: Key, rest: bytes)
    ensures var b := Entry(v, k) + rest;
            && |b| >= ENTRY_LEN && FromBE32(b) == v
            && b[4..ENTRY_LEN] == k && b[ENTRY_LEN..] == rest
  {
    var b := Entry(v, k) + rest;
    assert b[..4] == BE32(v);
    BE32Injective(FromBE32(b), v);
  }

  lemma EntryWritten(b: bytes)
    requires |b| >= ENTRY_LEN
    ensures b == Entry(FromBE32(b), b[4..ENTRY_LEN]) + b[ENTRY_LEN..]
  {
    assert b == b[..4] + b[4..ENTRY_LEN] + b[ENTRY_LEN..];
  }

  lemma EntriesExtend(r: KeyRing, v: Version, k: Key)
    requires Partial(r) && v !in r.keys
    ensures Partial(Extend(r, v, k))
    ensures Entries(Extend(r, v, k).order, Extend(r, v, k).keys) == Entries(r.order, r.keys) + Entry(v, k)
  {
    PartialExtends(r, v, k);
    EntriesSnoc(r.order, v, Extend(r, v, k).keys);
    EntriesFrame(r.order, r.keys, Extend(r, v, k).keys);
  }

  /** The loop accepts exactly what it has consumed followed by the entries still to come. */
  lemma {:induction false} DecodeEntriesSound(b: bytes, count: nat, r: KeyRing)
    requires Partial(r) && DecodeEntries(b, count, r).Ok?
    ensures var out := DecodeEntries(b, count, r).value;
            && out.Valid() && |out.order| == |r.order| + count
            && Entries(r.order, r.keys) + b == Entries(out.order, out.keys)
    decreases count
  {
    if count > 0 {
      var v, k, rest := FromBE32(b), b[4..ENTRY_LEN], b[ENTRY_LEN..];
      EntriesExtend(r, v, k);
      DecodeEntriesSound(rest, count - 1, Extend(r, v, k));
      EntryWritten(b);
      Associates(Entries(r.order, r.keys), Entry(v, k), rest);
    }
  }

  /** `r` is what a reader of `whole` holds after `done` entries. */
  ghost predicate Reading(r: KeyRing, whole: KeyRing, done: nat) {
    && done <= |whole.order|
    && Partial(r)
    && r.order == whole.order[..done]
    && (forall v :: v in r.keys ==> v in whole.keys && r.keys[v] == whole.keys[v])
  }

  lemma {:induction false} ReadingExtends(r: KeyRing, whole: KeyRing, done: nat)
    requires whole.Valid() && Reading(r, whole, done) && done < |whole.order|
    ensures var v := whole.order[done];
            v in whole.keys && v !in r.keys && Reading(Extend(r, v, whole.keys[v]), whole, done + 1)
  {
    var v := whole.order[done];
    assert v !in whole.order[..done];
    PartialExtends(r, v, whole.keys[v]);
  }

  lemma ReadingDone(r: KeyRing, whole: KeyRing)
    requires whole.Valid() && Reading(r, whole, |whole.order|)
    ensures r == whole
  {
    assert r.order == whole.order;
    assert r.keys == whole.keys;
  }

  /** One round of the reader over a printed entry. */
  lemma DecodesEntry(v: Version, k: Key, rest: bytes, count: nat, r: KeyRing)
    requires v !in r.keys && count > 0
    ensures DecodeEntries(Entry(v, k) + rest, count, r) == DecodeEntries(rest, count - 1, Extend(r, v, k))
  {
    EntryRead(v, k, rest);
  }

  /** The ring `r` with the entries of `order` read after it; None when a version comes twice. */
  function Grown(r: KeyRing, order: seq<Version>, keys: map<Version, Key>): Option<KeyRing>
    requires forall v :: v in order ==> v in keys
    decreases |order|
  {
    if order == [] then Some(r)
    else if order[0] in r.keys then None
    else Grown(Extend(r, order[0], keys[order[0]]), order[1..], keys)
  }

  /** The reader's rounds over printed entries grow the ring. */
  lemma {:induction false} DecodeGrows(r: KeyRing, order: seq<Version>, keys: map<Version, Key>)
    requires (forall v :: v in order ==> v in keys) && Grown(r, order, keys).Some?
    ensures DecodeEntries(Entries(order, keys), |order|, r) == DecodeEntries([], 0, Grown(r, order, keys).value)
    decreases |order|
  {
    if order != [] {
      var v, k := order[0], keys[order[0]];
      DecodesEntry(v, k, Entries(order[1..], keys), |order|, r);
      DecodeGrows(Extend(r, v, k), order[1..], keys);
    }
  }

  /** A ring grown from nothing along its own order is the ring. */
  lemma {:induction false} GrowsBack(r: KeyRing, whole: KeyRing, done: nat)
    requires whole.Valid() && Reading(r, whole, done)
    ensures Grown(r, whole.order[done..], whole.keys) == Some(whole)
    decreases |whole.order| - done
  {
    if done == |whole.order| {
      ReadingDone(r, whole);
    } else {
      ReadingExtends(r, whole, done);
      assert whole.order[done..][1..] == whole.order[done + 1..];
      GrowsBack(Extend(r, whole.order[done], whole.keys[whole.order[done]]), whole, done + 1);
    }
  }

  lemma DecodeEntriesComplete(whole: KeyRing)
    requires whole.Valid()
    ensures DecodeEntries(Entries(whole.order, whole.keys), |whole.order|, EMPTY) == Ok(whole)
  {
    assert whole.order[0..] == whole.order;
    GrowsBack(EMPTY, whole, 0);
    DecodeGrows(EMPTY, whole.order, whole.keys);
  }

  /** Every ring that fits the format is read back as itself, never as a legacy raw key. */
  lemma DecodeInvertsEncode(r: KeyRing)
    requires r.Valid() && |r.order| <= 0xFFFF
    ensures |Encode(r)| != KEY_LEN
    ensures Decode(Encode(r)) == Ok(r)
  {
    var b := Encode(r);
    assert b[..|MAGIC|] == MAGIC;
    assert b[|MAGIC|..][..2] == BE16(|r.order|);
    BE16Injective(FromBE16(b[|MAGIC|..]), |r.order|);
    assert b[|MAGIC| + 2..] == Entries(r.order, r.keys);
    DecodeEntriesComplete(r);
  }

  /** Everything accepted is a well-formed ring, and only its own file or a legacy raw key. */
  lemma DecodeSound(b: bytes)
    requires Decode(b).Ok?
    ensures var r := Decode(b).value;
            && r.Valid() && 1 <= |r.order| <= 0xFFFF
            && (|b| == KEY_LEN ==> r == Single(1, b))
            && (|b| != KEY_LEN ==> b == Encode(r))
  {
    if |b| != KEY_LEN {
      var count := FromBE16(b[|MAGIC|..]);
      var body := b[|MAGIC| + 2..];
      DecodeEntriesSound(body, count, EMPTY);
      var r := Decode(b).value;
      assert Entries([], EMPTY.keys) + body == body;
      assert b[|MAGIC|..][..2] == BE16(|r.order|);
      assert b == MAGIC + b[|MAGIC|..][..2] + body;
    }
  }
}
