/**
 Master-key rotation and startup alignment as a crash-recovery protocol
 (auth/rotate.go, auth/keystate.go, OpenMasterKey of auth/masterkey.go).

 The key file and the database cannot commit together, so every durable step is one
 action here and the process may die between any two of them.
 */
module Rotation {
  import opened Octets
  import opened KeyRings
  import opened Sealing

  type Ring = r: KeyRing | r.Valid() ghost witness Single(1, seq(KEY_LEN, _ => 0))

  /**
   What one read of the key file finds: no file, or a ring. `KeyRings.DecodeInvertsEncode`
   and `KeyRings.DecodeSound` make a ring and the bytes of its file interchangeable.
   */
  type Contents = Option<Ring>

  /** How far a durable file replacement got. */
  datatype Outcome = Published | NotPublished | Uncertain

  /** Where the process stands between two durable steps. */
  datatype Phase =
    | Down
    | Loaded
    | Aligned
    | Serving
    | Extended(ext: Ring)
    | Resealed(ext: Ring)
    | Compacted(ring: Ring)

  /**
   `disk` holds every content a later read of the key file may still return: an uncertain
   replacement adds one without ruling out the others. `truth` is what each row was last
   written to say; no code reads it. `link` is the share-link cipher's key, taken from the ring
   once when serving begins and never again. `held` are the records requests have sealed and not
   stored yet.
   */
  datatype State = State(
    disk: set<Contents>,
    dbVer: Option<Version>,
    rows: map<RowId, SealedRow>,
    mem: Option<Ring>,
    link: Option<Key>,
    held: map<nat, Pending>,
    phase: Phase,
    truth: map<RowId, bytes>)

  /** A sealed record on its way to the store, and what it says. */
  datatype Pending = Pending(row: SealedRow, plain: bytes)

  datatype Action =
    | Crash(left: set<Contents>)
    | Load(found: Contents)
    | Generate(minted: Key, generated: Outcome)
    | Establish(stored: bool)
    | Align(aligned: Outcome)
    | Probe(sample: Option<RowId>, readable: bool)
    | Seal(r: nat, id: RowId, tokenHash: bytes, plain: bytes)
    | Store(r: nat)
    | Delete(deleted: RowId)
    | BeginRotation(next: Key, extended: Outcome)
    | CommitReseal(committed: bool)
    | Compact(compacted: Outcome)
    | Swap

  /** A read of the key file yields a ring with key `k` at version `v`. */
  predicate Holds(c: Contents, v: Version, k: Key) {
    c.Some? && v in c.value.keys && c.value.keys[v] == k
  }

  predicate Persisted(r: Ring, o: Outcome) {
    |r.order| <= 0xFFFF && o.Published?
  }

  /** `persist`: a ring too long for the format is refused before the file is touched. */
  function Publish(disk: set<Contents>, r: Ring, o: Outcome): set<Contents> {
    if |r.order| > 0xFFFF then disk
    else
      match o
      case Published => {Some(r)}
      case NotPublished => disk
      case Uncertain => disk + {Some(r)}
  }

  predicate Reseals(row: SealedRow, ext: Ring) {
    && ext.Has(row.keyVer)
    && ResealRow(row, ext.keys[row.keyVer], ext.keys[ext.newest], ext.newest).Ok?
  }

  function ResealedRow(row: SealedRow, ext: Ring): SealedRow
    requires Reseals(row, ext)
  {
    Moved(row, ResealRow(row, ext.keys[row.keyVer], ext.keys[ext.newest], ext.newest).value, ext.newest)
  }

  /** The tables the transaction walks: share definitions, which hold a credential each, are not among them. */
  predicate Walked(id: RowId) {
    !id.ShareRow?
  }

  predicate AllReseal(rows: map<RowId, SealedRow>, ext: Ring) {
    forall id :: id in rows && Walked(id) ==> Reseals(rows[id], ext)
  }

  /** The one transaction of a rotation: every row it walks, or nothing. */
  function ResealAll(rows: map<RowId, SealedRow>, ext: Ring): Option<map<RowId, SealedRow>> {
    if AllReseal(rows, ext) then
      Some(map id | id in rows :: if Walked(id) then ResealedRow(rows[id], ext) else rows[id])
    else
      None
  }

  /** `done` holds the moved form of the walked rows but those of `todo`, and every other row as it was. */
  ghost predicate MovedSoFar(rows: map<RowId, SealedRow>, ext: Ring, done: map<RowId, SealedRow>, todo: set<RowId>) {
    done.Keys == rows.Keys && forall id :: id in rows ==> IsMoved(rows[id], ext, done[id], Walked(id) && id !in todo)
  }

  ghost predicate IsMoved(row: SealedRow, ext: Ring, now: SealedRow, moved: bool) {
    if moved then Reseals(row, ext) && now == ResealedRow(row, ext) else now == row
  }

  lemma {:induction false} MovedAll(rows: map<RowId, SealedRow>, ext: Ring, done: map<RowId, SealedRow>)
    requires MovedSoFar(rows, ext, done, {})
    ensures ResealAll(rows, ext) == Some(done)
  {
    assert AllReseal(rows, ext);
    assert ResealAll(rows, ext).value == done;
  }

  lemma MovedOneMore(rows: map<RowId, SealedRow>, ext: Ring, done: map<RowId, SealedRow>, todo: set<RowId>, id: RowId)
    requires MovedSoFar(rows, ext, done, todo) && id in rows && Walked(id) && Reseals(rows[id], ext)
    ensures MovedSoFar(rows, ext, done[id := ResealedRow(rows[id], ext)], todo - {id})
  {
  }

  lemma OneRowAborts(rows: map<RowId, SealedRow>, ext: Ring, id: RowId)
    requires id in rows && Walked(id) && !Reseals(rows[id], ext)
    ensures ResealAll(rows, ext).None?
  {
  }

  /** No share has a backend credential. */
  predicate NoShares(rows: map<RowId, SealedRow>) {
    forall id :: id in rows ==> !id.ShareRow?
  }

  /** The kinds of record a rotation is to move. */
  predicate IsResealed(id: RowId) {
    id.SMBRow? || id.TOTPRow? || id.LinkRow? || id.ConfigRow?
  }

  /** The row opens under the ring's key for its version. */
  predicate OpensIn(row: SealedRow, ring: Ring) {
    ring.Has(row.keyVer) && OpenRow(row, ring.keys[row.keyVer]).Ok?
  }

  /** Each SMB credential, second factor, link and configuration secret now says under `key` what it said in `ring`. */
  ghost predicate Rekeyed(rows: map<RowId, SealedRow>, ring: Ring, moved: map<RowId, SealedRow>, v: Version, key: Key) {
    moved.Keys == rows.Keys && forall id :: id in rows ==> RowRekeyed(id, rows[id], ring, moved[id], v, key)
  }

  ghost predicate RowRekeyed(id: RowId, row: SealedRow, ring: Ring, moved: SealedRow, v: Version, key: Key) {
    if IsResealed(id) then
      && OpensIn(row, ring) && moved.id == row.id && moved.tokenHash == row.tokenHash && moved.keyVer == v
      && OpenRow(moved, key) == OpenRow(row, ring.keys[row.keyVer])
    else moved == row
  }

  /** The transaction succeeds exactly when every such row opens, and then moves each of them and nothing else. */
  lemma ResealAllExactlyWhen(rows: map<RowId, SealedRow>, ext: Ring)
    ensures ResealAll(rows, ext).Some? <==> forall id :: id in rows && IsResealed(id) ==> OpensIn(rows[id], ext)
    ensures ResealAll(rows, ext).Some? ==>
              Rekeyed(rows, ext, ResealAll(rows, ext).value, ext.newest, ext.keys[ext.newest])
  {
    forall id | id in rows ensures Walked(id) ==> (Reseals(rows[id], ext) <==> OpensIn(rows[id], ext)) {
      RowReseals(rows[id], ext);
    }
    if AllReseal(rows, ext) {
      var moved := ResealAll(rows, ext).value;
      forall id | id in rows ensures RowRekeyed(id, rows[id], ext, moved[id], ext.newest, ext.keys[ext.newest]) {
        RowReseals(rows[id], ext);
      }
    }
  }

  lemma RowReseals(row: SealedRow, ext: Ring)
    ensures Reseals(row, ext) <==> OpensIn(row, ext)
    ensures Reseals(row, ext) ==>
              && OpenRow(ResealedRow(row, ext), ext.keys[ext.newest]) == OpenRow(row, ext.keys[row.keyVer])
              && ResealedRow(row, ext).id == row.id && ResealedRow(row, ext).tokenHash == row.tokenHash
              && ResealedRow(row, ext).keyVer == ext.newest
  {
    if ext.Has(row.keyVer) {
      ResealKeepsMeaning(row, ext.keys[row.keyVer], ext.keys[ext.newest], ext.newest);
    }
  }

  /** The service answers requests, a rotation included. */
  predicate Up(s: State) {
    s.phase.Serving? || s.phase.Extended? || s.phase.Resealed? || s.phase.Compacted?
  }

  /** Records are sealed under the ring's newest key and labelled with its version, except links. */
  predicate CanSeal(s: State, id: RowId) {
    s.mem.Some? && (id.LinkRow? ==> s.link.Some? && s.dbVer.Some?)
  }

  /** A link is sealed under the cipher's key and labelled with the version the database names. */
  function SealKey(s: State, id: RowId): (Key, Version)
    requires CanSeal(s, id)
  {
    if id.LinkRow? then (s.link.value, s.dbVer.value) else (s.mem.value.keys[s.mem.value.newest], s.mem.value.newest)
  }

  /** `SampleSealedRow`: some second factor when there is one. */
  predicate IsSample(rows: map<RowId, SealedRow>, sample: Option<RowId>) {
    match sample
    case Some(id) => id.TOTPRow? && id in rows
    case None => forall id :: id in rows ==> !id.TOTPRow?
  }

  /** The probe has a row to open exactly when some account has a second factor. */
  lemma SampledExactlyWhen(rows: map<RowId, SealedRow>)
    ensures exists sample :: IsSample(rows, sample)
    ensures forall sample :: IsSample(rows, sample) ==> (sample.Some? <==> exists user :: TOTPRow(user) in rows)
  {
    if id :| id in rows && id.TOTPRow? {
      assert IsSample(rows, Some(id)) && TOTPRow(id.user) in rows;
    } else {
      assert IsSample(rows, None);
    }
  }

  /** `checkMasterKey`: only a second factor that will not open, or a failed read, refuses the start. */
  predicate ProbePasses(rows: map<RowId, SealedRow>, ring: Ring, sample: Option<RowId>, readable: bool) {
    && readable
    && (sample.Some? && sample.value in rows ==>
          && ring.Has(rows[sample.value].keyVer)
          && OpenRow(rows[sample.value], ring.keys[rows[sample.value].keyVer]).Ok?)
  }

  ghost predicate Enabled(s: State, a: Action) {
    match a
    case Crash(left) => left != {} && left <= s.disk
    case Load(found) => s.phase.Down? && found in s.disk && found.Some?
    case Generate(_, _) => s.phase.Down? && None in s.disk
    case Establish(_) => s.phase.Loaded? && s.mem.Some? && s.dbVer.None?
    case Align(_) => s.phase.Loaded? && s.mem.Some? && s.dbVer.Some?
    case Probe(sample, _) => s.phase.Aligned? && s.mem.Some? && IsSample(s.rows, sample)
    case Store(r) => Up(s) && r in s.held
    case Seal(_, id, hash, plain) =>
      && Up(s) && CanSeal(s, id)
      && Bindable(BindingOf(SealedRow(id, hash, Foreign([]), 0)))
      && (id.SMBRow? ==> |plain| == NT_HASH_LEN)
    case Delete(_) => Up(s)
    case BeginRotation(_, _) => s.phase.Serving? && s.mem.Some?
    case CommitReseal(_) => s.phase.Extended?
    case Compact(_) => s.phase.Resealed?
    case Swap => s.phase.Compacted?
  }

  ghost function Step(s: State, a: Action): State
    requires Enabled(s, a)
  {
    match a
    case Crash(left) => s.(disk := left, mem := None, link := None, held := map[], phase := Down)
    case Load(found) =>
      s.(mem := found, phase := Loaded)
    case Generate(k, o) =>
      var r: Ring := Single(1, k);
      var s' := s.(disk := Publish(s.disk, r, o));
      if Persisted(r, o) then s'.(mem := Some(r), phase := Loaded) else s'
    case Establish(ok) =>
      if ok then s.(dbVer := Some(s.mem.value.newest)) else s.(mem := None, phase := Down)
    case Align(o) =>
      var v := s.dbVer.value;
      (match CompactTo(s.mem.value, v)
       case None => s.(mem := None, phase := Down)
       case Some(one) =>
         if s.mem.value.order == [v] then s.(phase := Aligned)
         else
           var s' := s.(disk := Publish(s.disk, one, o));
           if Persisted(one, o) then s'.(mem := Some(one), phase := Aligned) else s'.(mem := None, phase := Down))
    case Probe(sample, readable) =>
      var r := s.mem.value;
      if ProbePasses(s.rows, r, sample, readable) then s.(link := Some(r.keys[r.newest]), phase := Serving)
      else s.(mem := None, phase := Down)
    case Seal(r, id, hash, plain) =>
      var (key, v) := SealKey(s, id);
      s.(held := s.held[r := Pending(MintedRow(id, hash, plain, key, v), plain)])
    case Store(r) =>
      var p := s.held[r];
      s.(rows := s.rows[p.row.id := p.row], truth := s.truth[p.row.id := p.plain], held := s.held - {r})
    case Delete(id) => s.(rows := s.rows - {id}, truth := s.truth - {id})
    case BeginRotation(k, o) =>
      (match WithNewKey(s.mem.value, k)
       case Err(_) => s
       case Ok(ext) =>
         var s' := s.(disk := Publish(s.disk, ext, o));
         if Persisted(ext, o) then s'.(phase := Extended(ext)) else s')
    case CommitReseal(ok) =>
      var ext := s.phase.ext;
      var rows := ResealAll(s.rows, ext);
      if ok && rows.Some? then s.(rows := rows.value, dbVer := Some(ext.newest), phase := Resealed(ext))
      else s.(phase := Serving)
    case Compact(o) =>
      var ext := s.phase.ext;
      var one: Ring := Single(ext.newest, ext.keys[ext.newest]);
      var s' := s.(disk := Publish(s.disk, one, o));
      if Persisted(one, o) then s'.(phase := Compacted(one)) else s'.(phase := Serving)
    case Swap => s.(mem := Some(s.phase.ring), phase := Serving)
  }

  /**
   What was sealed can be read after a restart: its label is still the committed version, and a
   link was sealed under the file's key for it.
   */
  ghost predicate Fits(s: State, row: SealedRow) {
    && s.dbVer == Some(row.keyVer)
    && (row.id.LinkRow? && row.ciphertext.Sealed? ==>
          forall c :: c in s.disk ==> Holds(c, row.keyVer, row.ciphertext.key))
  }

  /** Whatever a later start reads, the version about to be recorded means the same key. */
  ghost predicate NewestSettled(s: State)
    requires s.mem.Some?
  {
    forall c :: c in s.disk ==> Holds(c, s.mem.value.newest, s.mem.value.keys[s.mem.value.newest])
  }

  /**
   The hypotheses of the recovery promise. A record is stored only while the version it was sealed
   under is the committed one, so never across a rotation's commit, nor after a rotation that failed
   past its commit until a restart; a link only when the cipher's key is that version's. A rotation is
   begun only under the committed version and commits only while no share has a backend credential. A
   first version is recorded only on a key file whose contents agree on it.
   */
  ghost predicate Disciplined(s: State, a: Action)
    requires Enabled(s, a)
  {
    match a
    case Store(r) => Fits(s, s.held[r].row)
    case BeginRotation(_, _) => s.dbVer == Some(s.mem.value.newest)
    case CommitReseal(committed) => committed ==> NoShares(s.rows)
    case Establish(stored) => stored ==> NewestSettled(s)
    case _ => true
  }

  ghost predicate Possible(s: State, run: seq<Action>)
    decreases |run|
  {
    run == [] || (Enabled(s, run[0]) && Possible(Step(s, run[0]), run[1..]))
  }

  ghost function Run(s: State, run: seq<Action>): State
    requires Possible(s, run)
    decreases |run|
  {
    if run == [] then s else Run(Step(s, run[0]), run[1..])
  }

  ghost predicate Legal(s: State, run: seq<Action>)
    decreases |run|
  {
    run == [] || (Enabled(s, run[0]) && Disciplined(s, run[0]) && Legal(Step(s, run[0]), run[1..]))
  }

  ghost predicate RowsOpen(s: State, k: Key) {
    && s.rows.Keys == s.truth.Keys
    && forall id :: id in s.rows ==>
         && s.rows[id].id == id
         && s.dbVer == Some(s.rows[id].keyVer)
         && OpenRow(s.rows[id], k) == Ok(s.truth[id])
  }

  /** The file is exactly the ring `r`. */
  ghost predicate OnDisk(s: State, r: Ring) {
    |r.order| <= 0xFFFF && s.disk == {Some(r)}
  }

  ghost predicate PhaseOk(s: State, k: Key) {
    match s.phase
    case Down => s.mem.None?
    case Loaded =>
      && s.mem.Some?
      && (s.dbVer.Some? ==> s.dbVer.value in s.mem.value.keys && s.mem.value.keys[s.dbVer.value] == k)
      && (s.dbVer.None? ==> s.mem in s.disk)
    case Aligned => s.dbVer.Some? && s.mem == Some(Single(s.dbVer.value, k))
    case Serving =>
      && s.mem.Some? && s.dbVer.Some? && s.mem.value.order == [s.mem.value.newest]
      && if s.mem.value.newest == s.dbVer.value then s.mem.value == Single(s.dbVer.value, k)
         else s.mem.value.newest + 1 == s.dbVer.value
    case Extended(ext) =>
      && s.dbVer.Some? && s.mem == Some(Single(s.dbVer.value, k))
      && ext.newest == s.dbVer.value + 1
      && s.dbVer.value in ext.keys && ext.keys[s.dbVer.value] == k
      && OnDisk(s, ext)
    case Resealed(ext) =>
      && s.mem.Some? && s.mem.value.order == [s.mem.value.newest] && s.mem.value.newest + 1 == ext.newest
      && s.dbVer == Some(ext.newest) && ext.keys[ext.newest] == k
      && OnDisk(s, ext)
    case Compacted(r) =>
      && s.mem.Some? && s.dbVer.Some? && r == Single(s.dbVer.value, k) && OnDisk(s, r)
      && s.mem.value.order == [s.mem.value.newest] && s.mem.value.newest + 1 == s.dbVer.value
  }

  /** A record as a seal step made it. */
  ghost predicate IsMinted(p: Pending) {
    && p.row.ciphertext.Sealed? && Bindable(BindingOf(p.row)) && (p.row.id.SMBRow? ==> |p.plain| == NT_HASH_LEN)
    && p.row == MintedRow(p.row.id, p.row.tokenHash, p.plain, p.row.ciphertext.key, p.row.keyVer)
  }

  /** It was sealed under the committed version or an older one, a link under any key. */
  ghost predicate PendingOk(p: Pending, dbVer: Option<Version>, k: Key) {
    && IsMinted(p) && dbVer.Some? && p.row.keyVer <= dbVer.value
    && (!p.row.id.LinkRow? && p.row.keyVer == dbVer.value ==> p.row.ciphertext.key == k)
  }

  ghost predicate HeldOk(s: State, k: Key) {
    forall r :: r in s.held ==> PendingOk(s.held[r], s.dbVer, k)
  }

  /** What every run keeps, `k` being the key the committed database needs. */
  ghost predicate InvAt(s: State, k: Key) {
    && s.disk != {}
    && (s.dbVer.Some? ==> forall c :: c in s.disk ==> Holds(c, s.dbVer.value, k))
    && RowsOpen(s, k)
    && HeldOk(s, k)
    && PhaseOk(s, k)
  }

  ghost predicate Inv(s: State) { exists k :: InvAt(s, k) }

  /** Publishing a ring that holds the needed key is safe whatever the outcome. */
  lemma PublishKeeps(s: State, k: Key, r: Ring, o: Outcome)
    requires s.disk != {} && s.dbVer.Some?
    requires forall c :: c in s.disk ==> Holds(c, s.dbVer.value, k)
    requires s.dbVer.value in r.keys && r.keys[s.dbVer.value] == k
    ensures Publish(s.disk, r, o) != {}
    ensures forall c :: c in Publish(s.disk, r, o) ==> Holds(c, s.dbVer.value, k)
    ensures Persisted(r, o) ==> OnDisk(s.(disk := Publish(s.disk, r, o)), r)
  {
  }

  lemma EstablishKeeps(s: State, k: Key, ok: bool) returns (k': Key)
    requires InvAt(s, k) && Enabled(s, Establish(ok)) && Disciplined(s, Establish(ok))
    ensures InvAt(Step(s, Establish(ok)), k')
  {
    k' := k;
    if ok {
      var m := s.mem.value;
      k' := m.keys[m.newest];
      assert s.rows == map[] && s.held == map[];
    }
  }

  /** A sealed record reads back under its own key and version, and under no other key. */
  lemma MintedReadsBack(id: RowId, hash: bytes, plain: bytes, key: Key, v: Version, other: Key)
    requires Bindable(BindingOf(SealedRow(id, hash, Foreign([]), 0))) && (id.SMBRow? ==> |plain| == NT_HASH_LEN)
    ensures var row := MintedRow(id, hash, plain, key, v);
            row.id == id && row.keyVer == v && (OpenRow(row, other) == Ok(plain) <==> other == key)
  {
    var row := MintedRow(id, hash, plain, key, v);
    SealedIsBound(key, BindingOf(row), v, plain, other, BindingOf(row), v);
  }

  lemma SealedIsPending(s: State, k: Key, id: RowId, hash: bytes, plain: bytes)
    requires InvAt(s, k) && Up(s) && CanSeal(s, id)
    requires Bindable(BindingOf(SealedRow(id, hash, Foreign([]), 0))) && (id.SMBRow? ==> |plain| == NT_HASH_LEN)
    ensures var (key, v) := SealKey(s, id);
            PendingOk(Pending(MintedRow(id, hash, plain, key, v), plain), s.dbVer, k)
  {
    var (key, v) := SealKey(s, id);
    assert s.dbVer.Some? && v <= s.dbVer.value && (!id.LinkRow? && v == s.dbVer.value ==> key == k);
    MintedIsMinted(id, hash, plain, key, v);
  }

  lemma MintedIsMinted(id: RowId, hash: bytes, plain: bytes, key: Key, v: Version)
    requires Bindable(BindingOf(SealedRow(id, hash, Foreign([]), 0))) && (id.SMBRow? ==> |plain| == NT_HASH_LEN)
    ensures var p := Pending(MintedRow(id, hash, plain, key, v), plain);
            IsMinted(p) && p.row.id == id && p.row.keyVer == v && p.row.ciphertext.key == key
  {
  }

  /** Sealing touches nothing durable. */
  lemma SealKeeps(s: State, k: Key, r: nat, id: RowId, hash: bytes, plain: bytes)
    requires InvAt(s, k) && Enabled(s, Seal(r, id, hash, plain))
    ensures InvAt(Step(s, Seal(r, id, hash, plain)), k)
  {
    SealedIsPending(s, k, id, hash, plain);
    assert HeldOk(Step(s, Seal(r, id, hash, plain)), k);
  }

  lemma HeldReadsBack(s: State, k: Key, r: nat)
    requires InvAt(s, k) && r in s.held && Fits(s, s.held[r].row)
    ensures OpenRow(s.held[r].row, k) == Ok(s.held[r].plain)
  {
    var p := s.held[r];
    var c :| c in s.disk;
    assert Holds(c, s.dbVer.value, k);
    assert p.row.id.LinkRow? ==> Holds(c, p.row.keyVer, p.row.ciphertext.key);
    MintedReadsBack(p.row.id, p.row.tokenHash, p.plain, p.row.ciphertext.key, p.row.keyVer, k);
  }

  lemma {:induction false} StoreKeeps(s: State, k: Key, r: nat)
    requires InvAt(s, k) && Enabled(s, Store(r)) && Fits(s, s.held[r].row)
    ensures InvAt(Step(s, Store(r)), k)
  {
    HeldReadsBack(s, k, r);
    assert RowsOpen(Step(s, Store(r)), k);
  }

  /** The transaction brings each row it walks to the new version, changes no meaning, and leaves the others. */
  lemma ResealAllMeans(rows: map<RowId, SealedRow>, ext: Ring, k: Key)
    requires forall id :: id in rows ==> ext.Has(rows[id].keyVer) && ext.keys[rows[id].keyVer] == k
    requires ResealAll(rows, ext).Some?
    ensures var moved := ResealAll(rows, ext).value;
            && moved.Keys == rows.Keys
            && forall id :: id in rows ==>
                 if IsResealed(id) then
                   && moved[id].id == rows[id].id && moved[id].keyVer == ext.newest
                   && OpenRow(moved[id], ext.keys[ext.newest]) == OpenRow(rows[id], k)
                 else moved[id] == rows[id]
  {
    ResealAllExactlyWhen(rows, ext);
    var moved := ResealAll(rows, ext).value;
    forall id | id in rows ensures RowRekeyed(id, rows[id], ext, moved[id], ext.newest, ext.keys[ext.newest]) {}
  }

  lemma CommitKeeps(s: State, k: Key, ok: bool) returns (k': Key)
    requires InvAt(s, k) && Enabled(s, CommitReseal(ok)) && Disciplined(s, CommitReseal(ok))
    ensures InvAt(Step(s, CommitReseal(ok)), k')
    ensures Step(s, CommitReseal(ok)).dbVer == Some(s.phase.ext.newest) ==> k' == s.phase.ext.keys[s.phase.ext.newest]
  {
    var ext := s.phase.ext;
    k' := k;
    if ok && ResealAll(s.rows, ext).Some? {
      k' := ext.keys[ext.newest];
      ResealAllMeans(s.rows, ext, k);
    }
  }

  /** A reseal in the rotation's second step never meets a row it cannot open. */
  lemma ResealNeverAborts(s: State, k: Key)
    requires InvAt(s, k) && s.phase.Extended?
    ensures ResealAll(s.rows, s.phase.ext).Some?
  {
    ResealAllExactlyWhen(s.rows, s.phase.ext);
    forall id | id in s.rows ensures OpensIn(s.rows[id], s.phase.ext) {
      RowOpensExtended(s, k, id);
    }
  }

  lemma RowOpensExtended(s: State, k: Key, id: RowId)
    requires InvAt(s, k) && s.phase.Extended? && id in s.rows
    ensures OpensIn(s.rows[id], s.phase.ext)
  {
    assert s.dbVer == Some(s.rows[id].keyVer) && OpenRow(s.rows[id], k).Ok?;
  }

  lemma BeginKeeps(s: State, k: Key, minted: Key, o: Outcome)
    requires InvAt(s, k) && Enabled(s, BeginRotation(minted, o)) && Disciplined(s, BeginRotation(minted, o))
    ensures InvAt(Step(s, BeginRotation(minted, o)), k)
  {
    match WithNewKey(s.mem.value, minted)
    case Err(_) =>
    case Ok(ext) =>
      PublishKeeps(s, k, ext, o);
  }

  lemma OnlyOne(m: Ring, v: Version)
    requires m.order == [v]
    ensures m == Single(v, m.keys[v])
  {
    assert v in m.order;
    assert forall w :: w in m.keys ==> w in m.order;
    assert m.keys == map[v := m.keys[v]];
  }

  lemma {:induction false} AlignKeeps(s: State, k: Key, o: Outcome)
    requires InvAt(s, k) && Enabled(s, Align(o))
    ensures InvAt(Step(s, Align(o)), k)
    ensures s.mem.value.Has(s.dbVer.value)
    ensures Step(s, Align(o)).phase.Aligned? ==> Step(s, Align(o)).mem == Some(Single(s.dbVer.value, k))
    ensures o.Published? ==> Step(s, Align(o)).phase.Aligned?
    ensures Step(s, Align(o)).rows == s.rows && Step(s, Align(o)).truth == s.truth
  {
    var m, v := s.mem.value, s.dbVer.value;
    var one: Ring := Single(v, k);
    assert CompactTo(m, v) == Some(one);
    if m.order == [v] {
      OnlyOne(m, v);
    } else {
      PublishKeeps(s, k, one, o);
    }
  }

  lemma CompactKeeps(s: State, k: Key, o: Outcome)
    requires InvAt(s, k) && Enabled(s, Compact(o))
    ensures InvAt(Step(s, Compact(o)), k)
  {
    var one: Ring := Single(s.phase.ext.newest, s.phase.ext.keys[s.phase.ext.newest]);
    PublishKeeps(s, k, one, o);
  }

  lemma DeleteKeeps(s: State, k: Key, id: RowId)
    requires InvAt(s, k) && Enabled(s, Delete(id))
    ensures InvAt(Step(s, Delete(id)), k)
  {
  }

  lemma StepKeeps(s: State, a: Action, k: Key) returns (k': Key)
    requires InvAt(s, k) && Enabled(s, a) && Disciplined(s, a)
    ensures InvAt(Step(s, a), k')
  {
    k' := k;
    match a
    case Crash(left) =>
    case Load(found) =>
    case Generate(minted, o) =>
      assert s.dbVer.None?;
    case Establish(ok) => k' := EstablishKeeps(s, k, ok);
    case Align(o) => AlignKeeps(s, k, o);
    case Probe(sample, readable) =>
    case Seal(r, id, hash, plain) => SealKeeps(s, k, r, id, hash, plain);
    case Store(r) => StoreKeeps(s, k, r);
    case Delete(id) => DeleteKeeps(s, k, id);
    case BeginRotation(minted, o) => BeginKeeps(s, k, minted, o);
    case CommitReseal(ok) => k' := CommitKeeps(s, k, ok);
    case Compact(o) => CompactKeeps(s, k, o);
    case Swap =>
  }

  /** Every row reads back as what it says, under any ring a later start may find. */
  ghost predicate Recoverable(s: State) {
    && (s.dbVer.Some? ==> forall c :: c in s.disk ==> c.Some? && c.value.Has(s.dbVer.value))
    && forall c, id :: c in s.disk && id in s.rows ==> ReadsBack(s, c, id)
  }

  ghost predicate ReadsBack(s: State, c: Contents, id: RowId)
    requires id in s.rows
  {
    && c.Some? && c.value.Has(s.rows[id].keyVer) && id in s.truth
    && OpenRow(s.rows[id], c.value.keys[s.rows[id].keyVer]) == Ok(s.truth[id])
  }

  lemma {:induction false} RunKeeps(s: State, run: seq<Action>)
    requires Inv(s) && Legal(s, run)
    ensures Possible(s, run) && Inv(Run(s, run))
    decreases |run|
  {
    if run != [] {
      var k :| InvAt(s, k);
      var _ := StepKeeps(s, run[0], k);
      RunKeeps(Step(s, run[0]), run[1..]);
    }
  }

  lemma InvRecovers(t: State)
    requires Inv(t)
    ensures Recoverable(t)
  {
    var k :| InvAt(t, k);
    forall c, id | c in t.disk && id in t.rows ensures ReadsBack(t, c, id) {
      assert Holds(c, t.dbVer.value, k);
    }
  }

  /** The promise of a rotation: any steps, failures, crashes and restarts leave every row readable. */
  lemma {:induction false} RecoveryTheorem(s: State, run: seq<Action>)
    requires Inv(s) && Legal(s, run)
    ensures Possible(s, run) && Inv(Run(s, run)) && Recoverable(Run(s, run))
  {
    RunKeeps(s, run);
    InvRecovers(Run(s, run));
  }

  /** A state all of whose disciplined futures keep every row readable. */
  ghost predicate Safe(t: State) {
    forall run :: Legal(t, run) ==> Possible(t, run) && Recoverable(Run(t, run))
  }

  lemma InvIsSafe(t: State)
    requires Inv(t)
    ensures Safe(t)
  {
    forall run | Legal(t, run) ensures Possible(t, run) && Recoverable(Run(t, run)) {
      RecoveryTheorem(t, run);
    }
  }

  /** A deployment that has never started satisfies the invariant, and so does one with a legacy raw key. */
  lemma FreshDeployment()
    ensures Inv(Stopped({None}, None, map[], map[]))
  {
    var k: Key := seq(KEY_LEN, _ => 0);
    assert InvAt(Stopped({None}, None, map[], map[]), k);
  }

  lemma LegacyDeployment(k: Key, rows: map<RowId, SealedRow>, truth: map<RowId, bytes>)
    requires RowsOpen(Stopped({Some(Single(1, k))}, Some(1), rows, truth), k)
    ensures Inv(Stopped({Some(Single(1, k))}, Some(1), rows, truth))
  {
    assert InvAt(Stopped({Some(Single(1, k))}, Some(1), rows, truth), k);
  }

  /** What outlives a process, with no process running. */
  function Stopped(disk: set<Contents>, dbVer: Option<Version>, rows: map<RowId, SealedRow>,
          truth: map<RowId, bytes>): State
  {
    State(disk, dbVer, rows, None, None, map[], Down, truth)
  }

  lemma RunCons(s: State, a: Action, rest: seq<Action>)
    requires Enabled(s, a) && Possible(Step(s, a), rest)
    ensures Possible(s, [a] + rest) && Run(s, [a] + rest) == Run(Step(s, a), rest)
    ensures Disciplined(s, a) && Legal(Step(s, a), rest) ==> Legal(s, [a] + rest)
  {
    assert ([a] + rest)[1..] == rest;
  }

  /** `run` is a disciplined run from `s` to `t`. */
  ghost predicate Leads(s: State, run: seq<Action>, t: State) {
    Legal(s, run) && Possible(s, run) && Run(s, run) == t
  }

  lemma LeadsCons(s: State, a: Action, rest: seq<Action>, t: State)
    requires Enabled(s, a) && Disciplined(s, a) && Leads(Step(s, a), rest, t)
    ensures Leads(s, [a] + rest, t)
  {
    RunCons(s, a, rest);
  }

  /** `t` is reached from `s` by some disciplined run. */
  ghost predicate Gets(s: State, t: State) {
    exists run :: Leads(s, run, t)
  }

  lemma GetsHere(s: State)
    ensures Gets(s, s)
  {
    assert Leads(s, [], s);
  }

  lemma GetsFirst(s: State, a: Action, u: State, t: State)
    requires Enabled(s, a) && Disciplined(s, a) && u == Step(s, a) && Gets(u, t)
    ensures Gets(s, t)
  {
    var rest :| Leads(u, rest, t);
    LeadsCons(s, a, rest, t);
    assert Leads(s, [a] + rest, t);
  }

  lemma UnsafeWhenItGets(s: State, t: State)
    requires Gets(s, t) && !Recoverable(t)
    ensures !Safe(s)
  {
    var run :| Leads(s, run, t);
    assert Legal(s, run);
  }

  /** The committed version survives a reload: the file holds it, whatever is found. */
  lemma ReloadFinds(s: State, left: set<Contents>, found: Contents, k: Key)
    requires s.dbVer.Some? && left != {} && left <= s.disk && found in left && Holds(found, s.dbVer.value, k)
    ensures var t := Step(s, Crash(left));
            && Enabled(t, Load(found))
            && var u := Step(t, Load(found));
               && u == State(left, s.dbVer, s.rows, found, None, map[], Loaded, s.truth)
               && Enabled(u, Align(Published))
               && var v := Step(u, Align(Published));
                  v.phase.Aligned? && v.mem == Some(Single(s.dbVer.value, k)) && v.rows == s.rows && v.truth == s.truth
                  && v.dbVer == s.dbVer && (left == {found} ==> v.disk == {v.mem})
  {
    var m: Ring := found.value;
    if m.order == [s.dbVer.value] {
      OnlyOne(m, s.dbVer.value);
    }
  }

  lemma ReloadKeeps(s: State, k: Key, left: set<Contents>, found: Contents)
    requires InvAt(s, k) && s.dbVer.Some? && left != {} && left <= s.disk && found in left
    ensures var u := Step(Step(s, Crash(left)), Load(found));
            Holds(found, s.dbVer.value, k) && InvAt(u, k)
  {
    assert Holds(found, s.dbVer.value, k);
  }

  /** Under the invariant the probe of a second factor never refuses a start. */
  lemma ProbeNeverRefuses(s: State, k: Key, sample: Option<RowId>)
    requires InvAt(s, k) && Enabled(s, Probe(sample, true))
    ensures var t := Step(s, Probe(sample, true));
            t.phase.Serving? && InvAt(t, k) && t.link == Some(k) && t == s.(link := Some(k), phase := Serving)
  {
  }

  lemma RestartAligns(s: State, k: Key, left: set<Contents>, found: Contents) returns (s1: State, u: State, v: State)
    requires InvAt(s, k) && s.dbVer.Some? && left != {} && left <= s.disk && found in left
    ensures Enabled(s, Crash(left)) && s1 == Step(s, Crash(left))
    ensures Enabled(s1, Load(found)) && u == Step(s1, Load(found))
    ensures Enabled(u, Align(Published)) && v == Step(u, Align(Published))
    ensures v.phase.Aligned? && InvAt(v, k) && v.mem == Some(Single(s.dbVer.value, k))
    ensures v.rows == s.rows && v.truth == s.truth
  {
    ReloadKeeps(s, k, left, found);
    ReloadFinds(s, left, found, k);
    s1 := Step(s, Crash(left));
    u := Step(s1, Load(found));
    AlignKeeps(u, k, Published);
    v := Step(u, Align(Published));
  }

  /** `run` is any run the code allows from `s` to `t`, disciplined or not. */
  ghost predicate Reaches(s: State, run: seq<Action>, t: State) {
    Possible(s, run) && Run(s, run) == t
  }

  /** Steps in a row, disciplined when each of them is. */
  lemma {:induction false} ReachesTwo(s: State, a: Action, s1: State, b: Action, t: State)
    requires Enabled(s, a) && s1 == Step(s, a) && Enabled(s1, b) && t == Step(s1, b)
    ensures Reaches(s, [a] + [b], t) && (Disciplined(s, a) && Disciplined(s1, b) ==> Leads(s, [a] + [b], t))
  {
    RunCons(s1, b, []);
    assert [b] + [] == [b];
    RunCons(s, a, [b]);
  }

  lemma {:induction false} ReachesThree(s: State, a: Action, s1: State, b: Action, s2: State, c: Action, t: State)
    requires Enabled(s, a) && s1 == Step(s, a) && Enabled(s1, b) && s2 == Step(s1, b)
    requires Enabled(s2, c) && t == Step(s2, c)
    ensures Reaches(s, [a] + ([b] + [c]), t)
    ensures Disciplined(s, a) && Disciplined(s1, b) && Disciplined(s2, c) ==> Leads(s, [a] + ([b] + [c]), t)
  {
    ReachesTwo(s1, b, s2, c, t);
    RunCons(s, a, [b] + [c]);
  }

  lemma {:induction false} ReachesFour(s: State, a: Action, s1: State, b: Action, s2: State, c: Action, s3: State,
          d: Action, t: State)
    requires Enabled(s, a) && s1 == Step(s, a) && Enabled(s1, b) && s2 == Step(s1, b)
    requires Enabled(s2, c) && s3 == Step(s2, c) && Enabled(s3, d) && t == Step(s3, d)
    ensures Reaches(s, [a] + ([b] + ([c] + [d])), t)
    ensures Disciplined(s, a) && Disciplined(s1, b) && Disciplined(s2, c) && Disciplined(s3, d) ==>
              Leads(s, [a] + ([b] + ([c] + [d])), t)
  {
    ReachesThree(s1, b, s2, c, s3, d, t);
    RunCons(s, a, [b] + ([c] + [d]));
  }

  /** A crash anywhere, then a start whose one file write lands, ends serving on exactly the committed version. */
  lemma {:induction false} RestartRecovers(s: State, left: set<Contents>, found: Contents, sample: Option<RowId>)
    returns (t: State)
    requires Inv(s) && s.dbVer.Some? && left != {} && left <= s.disk && found in left && IsSample(s.rows, sample)
    ensures Leads(s, [Crash(left)] + ([Load(found)] + ([Align(Published)] + [Probe(sample, true)])), t)
    ensures t.phase.Serving? && Inv(t)
    ensures exists k :: t.mem == Some(Single(s.dbVer.value, k)) && t.link == Some(k)
    ensures t.rows == s.rows && t.truth == s.truth
  {
    var k :| InvAt(s, k);
    var s1, u, v := RestartAligns(s, k, left, found);
    ProbeNeverRefuses(v, k, sample);
    t := Step(v, Probe(sample, true));
    ReachesFour(s, Crash(left), s1, Load(found), u, Align(Published), v, Probe(sample, true), t);
  }

  lemma BeginSucceeds(s: State, k: Key, minted: Key) returns (t: State)
    requires InvAt(s, k) && s.phase.Serving? && s.dbVer == Some(s.mem.value.newest)
    requires s.mem.value.newest < 0xFFFF_FFFF
    ensures t == Step(s, BeginRotation(minted, Published)) && InvAt(t, k)
    ensures t.phase.Extended? && t == s.(disk := t.disk, phase := t.phase)
    ensures t.phase.ext.newest == s.mem.value.newest + 1 && t.phase.ext.keys[t.phase.ext.newest] == minted
    ensures Disciplined(s, BeginRotation(minted, Published))
  {
    BeginKeeps(s, k, minted, Published);
    t := Step(s, BeginRotation(minted, Published));
  }

  /** The transaction lands: each row it walks is at the new version and says what it said. */
  lemma CommitSucceeds(s: State, k: Key) returns (t: State)
    requires InvAt(s, k) && s.phase.Extended?
    ensures t == Step(s, CommitReseal(true)) && t.phase == Resealed(s.phase.ext) && t.dbVer == Some(s.phase.ext.newest)
    ensures t == s.(rows := t.rows, dbVer := t.dbVer, phase := t.phase)
    ensures MovedTo(s, t, s.phase.ext.newest, s.phase.ext.keys[s.phase.ext.newest])
  {
    t := Step(s, CommitReseal(true));
    ResealNeverAborts(s, k);
    ResealAllMeans(s.rows, s.phase.ext, k);
  }

  /** Each row of the four kinds is at version `v` and reads back under `key`; share credentials are as they were. */
  ghost predicate MovedTo(s: State, t: State, v: Version, key: Key) {
    && t.rows.Keys == s.rows.Keys
    && forall id :: id in t.rows ==>
         if IsResealed(id) then
           && t.rows[id].id == id && t.rows[id].keyVer == v
           && id in t.truth && OpenRow(t.rows[id], key) == Ok(t.truth[id])
         else t.rows[id] == s.rows[id]
  }

  lemma CompactSucceeds(s: State) returns (t: State)
    requires s.phase.Resealed?
    ensures Enabled(s, Compact(Published)) && t == Step(s, Compact(Published))
    ensures var ext := s.phase.ext;
            var one: Ring := Single(ext.newest, ext.keys[ext.newest]);
            t == s.(disk := {Some(one)}, phase := Compacted(one))
  {
    t := Step(s, Compact(Published));
  }

  const FINISH: seq<Action> := [Compact(Published)] + [Swap]

  /** An undisturbed rotation as the steps it is. */
  function RotationRun(minted: Key): seq<Action> {
    [BeginRotation(minted, Published)] + ([CommitReseal(true)] + FINISH)
  }

  /**
   An undisturbed rotation succeeds: every row it walks moves to the new version and says what it
   said. It is a disciplined run, and keeps the invariant, when no share has a backend credential.
   */
  lemma RotationSucceeds(s: State, minted: Key) returns (t: State)
    requires Inv(s) && s.phase.Serving? && s.dbVer == Some(s.mem.value.newest) && s.mem.value.newest < 0xFFFF_FFFF
    ensures Reaches(s, RotationRun(minted), t)
    ensures t.phase.Serving? && t.dbVer == Some(s.mem.value.newest + 1) && t.link == s.link && t.held == s.held
    ensures t.mem == Some(Single(s.mem.value.newest + 1, minted)) && OnDisk(t, t.mem.value)
    ensures t.truth == s.truth && MovedTo(s, t, s.mem.value.newest + 1, minted)
    ensures NoShares(s.rows) ==> Leads(s, RotationRun(minted), t) && InvAt(t, minted)
  {
    var k :| InvAt(s, k);
    var s1 := BeginSucceeds(s, k, minted);
    var s2 := CommitSucceeds(s1, k);
    var s3 := CompactSucceeds(s2);
    t := Step(s3, Swap);
    ReachesFour(s, BeginRotation(minted, Published), s1, CommitReseal(true), s2, Compact(Published), s3, Swap, t);
    if NoShares(s.rows) {
      RotatedInv(s, k, t, minted);
    }
  }

  lemma RotatedInv(s: State, k: Key, t: State, minted: Key)
    requires InvAt(s, k) && s.phase.Serving? && s.dbVer == Some(s.mem.value.newest) && s.mem.value.newest < 0xFFFF_FFFF
    requires t.phase.Serving? && t.dbVer == Some(s.mem.value.newest + 1) && t.held == s.held && t.truth == s.truth
    requires t.mem == Some(Single(s.mem.value.newest + 1, minted)) && OnDisk(t, t.mem.value)
    requires MovedTo(s, t, s.mem.value.newest + 1, minted) && NoShares(s.rows)
    ensures InvAt(t, minted)
  {
    forall id | id in t.rows
      ensures t.rows[id].id == id && t.dbVer == Some(t.rows[id].keyVer)
      ensures OpenRow(t.rows[id], minted) == Ok(t.truth[id])
    {
      assert id in s.rows && IsResealed(id);
    }
    assert RowsOpen(t, minted);
    RotatedHeld(s, k, t, minted);
  }

  lemma RotatedHeld(s: State, k: Key, t: State, minted: Key)
    requires InvAt(s, k) && s.dbVer.Some? && t.dbVer == Some(s.dbVer.value + 1) && t.held == s.held
    ensures HeldOk(t, minted)
  {
    forall r | r in t.held ensures PendingOk(t.held[r], t.dbVer, minted) {
      assert PendingOk(s.held[r], s.dbVer, k);
    }
  }

  lemma {:induction false} RunSnoc(s: State, run: seq<Action>, t: State, a: Action)
    requires Reaches(s, run, t) && Enabled(t, a)
    ensures Reaches(s, run + [a], Step(t, a))
    ensures Legal(s, run) && Disciplined(t, a) ==> Legal(s, run + [a])
    decreases |run|
  {
    if run == [] {
      RunCons(t, a, []);
      assert run + [a] == [a] + [];
    } else {
      RunSnoc(Step(s, run[0]), run[1..], t, a);
      assert (run + [a])[1..] == run[1..] + [a];
    }
  }
}
