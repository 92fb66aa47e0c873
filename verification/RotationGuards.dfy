/** The hypotheses of the recovery promise are exact: what the code does on either side of each guard. */
module RotationGuards {
  import opened Octets
  import opened KeyRings
  import opened Sealing
  import opened Rotation

  lemma WrongKeyUnreadable(t: State, c: Contents, id: RowId, k: Key)
    requires id in t.rows && c in t.disk && c.Some? && OpenRow(t.rows[id], k).Ok?
    requires c.value.Has(t.rows[id].keyVer) ==> c.value.keys[t.rows[id].keyVer] != k
    ensures !Recoverable(t)
  {
    if c.value.Has(t.rows[id].keyVer) {
      OneKeyOnly(t.rows[id], k, c.value.keys[t.rows[id].keyVer]);
    }
    assert !ReadsBack(t, c, id);
  }

  // ---- Sealing a record.

  /** A restart drops the version a record was sealed under when it is not the committed one. */
  lemma StaleLabelIsLost(t: State, k: Key, id: RowId)
    requires t.dbVer.Some? && t.disk != {} && forall c :: c in t.disk ==> Holds(c, t.dbVer.value, k)
    requires id in t.rows && t.dbVer != Some(t.rows[id].keyVer)
    ensures !Safe(t)
  {
    var c :| c in t.disk;
    assert Holds(c, t.dbVer.value, k);
    ReloadFinds(t, {c}, c, k);
    var t1 := Step(t, Crash({c}));
    var t2 := Step(t1, Load(c));
    var t3 := Step(t2, Align(Published));
    GetsHere(t3);
    GetsFirst(t2, Align(Published), t3, t3);
    GetsFirst(t1, Load(c), t2, t3);
    GetsFirst(t, Crash({c}), t1, t3);
    assert !ReadsBack(t3, t3.mem, id);
    UnsafeWhenItGets(t, t3);
  }

  /**
   Storing a record sealed earlier is safe exactly when it still fits: its label is the committed
   version, and for a link the cipher's key is the key file's at that version.
   */
  lemma StoreSafeExactlyWhenItFits(s: State, k: Key, r: nat)
    requires InvAt(s, k) && Enabled(s, Store(r))
    ensures Safe(Step(s, Store(r))) <==> Fits(s, s.held[r].row)
  {
    var t, row := Step(s, Store(r)), s.held[r].row;
    if Fits(s, row) {
      StoreKeeps(s, k, r);
      InvIsSafe(t);
    } else if s.dbVer == Some(row.keyVer) {
      MisfitLinkIsLost(s, k, r);
      GetsHere(t);
      UnsafeWhenItGets(t, t);
    } else {
      StaleLabelIsLost(t, k, row.id);
    }
  }

  /** What is sealed and stored at once fits exactly when the ring, or for a link the cipher, is current. */
  lemma SealFitsExactlyWhenCurrent(s: State, k: Key, r: nat, id: RowId, hash: bytes, plain: bytes)
    requires InvAt(s, k) && Enabled(s, Seal(r, id, hash, plain))
    ensures var t := Step(s, Seal(r, id, hash, plain));
            Fits(t, t.held[r].row) <==> if id.LinkRow? then s.link == Some(k) else s.dbVer == Some(s.mem.value.newest)
  {
    var (key, v) := SealKey(s, id);
    var t := Step(s, Seal(r, id, hash, plain));
    assert t.held[r].row.keyVer == v && t.held[r].row.ciphertext.key == key;
    var c :| c in s.disk;
    assert Holds(c, s.dbVer.value, k);
  }

  /** A link sealed under another key than the committed version's reads back under no content of the file. */
  lemma {:induction false} MisfitLinkIsLost(s: State, k: Key, r: nat)
    requires s.dbVer.Some? && s.disk != {} && forall c :: c in s.disk ==> Holds(c, s.dbVer.value, k)
    requires Enabled(s, Store(r)) && IsMinted(s.held[r]) && s.dbVer == Some(s.held[r].row.keyVer)
    requires !Fits(s, s.held[r].row)
    ensures var t, id := Step(s, Store(r)), s.held[r].row.id;
            && !Recoverable(t)
            && id in t.rows && t.dbVer == Some(t.rows[id].keyVer) && OpenRow(t.rows[id], k).Err?
            && forall c :: c in t.disk ==> !ReadsBack(t, c, id)
  {
    var p, t := s.held[r], Step(s, Store(r));
    MintedReadsBack(p.row.id, p.row.tokenHash, p.plain, p.row.ciphertext.key, p.row.keyVer, k);
    forall c | c in t.disk ensures !ReadsBack(t, c, p.row.id) {
      assert Holds(c, s.dbVer.value, k);
    }
    var c :| c in t.disk;
  }

  /** While the cipher's key is not the committed version's, every new link is lost and stops every later reseal. */
  lemma StaleCipherLosesLinks(t: State, v: Version, k: Key, r: nat, link: int, hash: bytes, token: bytes)
    returns (u: State)
    requires Up(t) && t.mem.Some? && t.dbVer == Some(v) && t.link.Some? && t.link.value != k
    requires t.disk != {} && forall c :: c in t.disk ==> Holds(c, v, k)
    ensures Reaches(t, [Seal(r, LinkRow(link), hash, token)] + [Store(r)], u) && u.dbVer == t.dbVer
    ensures forall c :: c in u.disk ==> LinkRow(link) in u.rows && !ReadsBack(u, c, LinkRow(link))
    ensures forall ext: Ring :: Holds(Some(ext), v, k) ==> ResealAll(u.rows, ext).None?
  {
    var id := LinkRow(link);
    var s := Step(t, Seal(r, id, hash, token));
    u := Step(s, Store(r));
    ReachesTwo(t, Seal(r, id, hash, token), s, Store(r), u);
    MintedIsMinted(id, hash, token, t.link.value, v);
    var c :| c in t.disk;
    assert !Holds(c, v, t.link.value);
    MisfitLinkIsLost(s, k, r);
    UnreadableStopsReseals(u.rows, id, v, k);
  }

  lemma UnreadableStopsReseals(rows: map<RowId, SealedRow>, id: RowId, v: Version, k: Key)
    requires id in rows && Walked(id) && rows[id].keyVer == v && OpenRow(rows[id], k).Err?
    ensures forall ext: Ring :: Holds(Some(ext), v, k) ==> ResealAll(rows, ext).None?
  {
    forall ext: Ring | Holds(Some(ext), v, k) ensures ResealAll(rows, ext).None? {
      assert !Reseals(rows[id], ext);
    }
  }

  /**
   That happens after every successful rotation without a restart: the cipher still holds the old
   key. The next link is lost, and its row makes the next rotation's reseal abandon its transaction.
   */
  lemma LinkAfterRotationIsLost(s: State, minted: Key, r: nat, link: int, hash: bytes, token: bytes)
    returns (t: State, u: State)
    requires Inv(s) && s.phase.Serving? && s.dbVer == Some(s.mem.value.newest) && s.mem.value.newest < 0xFFFF_FFFF
    requires s.link.Some? && s.link.value != minted
    ensures Reaches(s, RotationRun(minted), t) && (NoShares(s.rows) ==> Leads(s, RotationRun(minted), t))
    ensures Reaches(t, [Seal(r, LinkRow(link), hash, token)] + [Store(r)], u)
    ensures forall c :: c in u.disk ==> LinkRow(link) in u.rows && !ReadsBack(u, c, LinkRow(link))
    ensures u.dbVer == t.dbVer == Some(s.mem.value.newest + 1)
    ensures forall ext: Ring :: Holds(Some(ext), s.mem.value.newest + 1, minted) ==> ResealAll(u.rows, ext).None?
  {
    t := RotationSucceeds(s, minted);
    u := StaleCipherLosesLinks(t, s.mem.value.newest + 1, minted, r, link, hash, token);
  }

  /** A record sealed and stored between a rotation's commit and its swap is unreadable once the ring is compacted. */
  lemma SealDuringRotationIsLost(s: State, r: nat, id: RowId, hash: bytes, plain: bytes) returns (t: State)
    requires Inv(s) && s.phase.Resealed? && Enabled(s, Seal(r, id, hash, plain)) && !id.LinkRow?
    ensures Reaches(s, [Seal(r, id, hash, plain)] + ([Store(r)] + [Compact(Published)]), t)
    ensures forall c :: c in t.disk ==> id in t.rows && !ReadsBack(t, c, id)
  {
    var u := Step(s, Seal(r, id, hash, plain));
    var v := Step(u, Store(r));
    t := CompactSucceeds(v);
    ReachesThree(s, Seal(r, id, hash, plain), u, Store(r), v, Compact(Published), t);
    MemoryLags(s);
    assert v.rows[id].keyVer == s.mem.value.newest;
    OtherVersionIsLost(t, s.phase.ext.newest, s.phase.ext.keys[s.phase.ext.newest], id);
  }

  lemma MemoryLags(s: State)
    requires Inv(s) && s.phase.Resealed?
    ensures s.mem.Some? && s.mem.value.newest != s.phase.ext.newest
  {
  }

  /**
   The guard at the seal is not enough. A record that fitted when it was sealed, and is stored after
   a rotation's commit, is lost.
   */
  lemma SealedAcrossTheCommitIsLost(s: State, k: Key, r: nat) returns (t: State)
    requires InvAt(s, k) && s.phase.Extended? && r in s.held && Fits(s, s.held[r].row)
    ensures t == Step(s, CommitReseal(true)) && Enabled(t, Store(r))
    ensures !Fits(t, t.held[r].row) && !Safe(Step(t, Store(r)))
  {
    t := CommitSucceeds(s, k);
    ExtendedIs(s, k);
    NewestIsHeld(s.phase.ext);
    StoringStaleLoses(t, s.phase.ext.keys[s.phase.ext.newest], r);
  }

  lemma StoringStaleLoses(t: State, k: Key, r: nat)
    requires t.dbVer.Some? && t.disk != {} && forall c :: c in t.disk ==> Holds(c, t.dbVer.value, k)
    requires Enabled(t, Store(r)) && t.dbVer != Some(t.held[r].row.keyVer)
    ensures !Safe(Step(t, Store(r)))
  {
    StaleLabelIsLost(Step(t, Store(r)), k, t.held[r].row.id);
  }

  // ---- Share credentials.

  lemma RowsAreCurrent(s: State, id: RowId)
    requires Inv(s) && id in s.rows
    ensures s.dbVer == Some(s.rows[id].keyVer)
  {
  }

  /** A key file of one version opens no row of another. */
  lemma OtherVersionIsLost(t: State, v: Version, key: Key, id: RowId)
    requires t.disk == {Some(Single(v, key))} && id in t.rows && t.rows[id].keyVer != v
    ensures forall c :: c in t.disk ==> !ReadsBack(t, c, id)
  {
  }

  /** After a rotation no content of the file opens a share's credential, though it was stored as it should be. */
  lemma RotationLosesShares(s: State, minted: Key, id: RowId) returns (t: State)
    requires Inv(s) && s.phase.Serving? && s.dbVer == Some(s.mem.value.newest) && s.mem.value.newest < 0xFFFF_FFFF
    requires id in s.rows && id.ShareRow?
    ensures Reaches(s, RotationRun(minted), t) && t.phase.Serving? && id in t.rows
    ensures t.disk != {} && forall c :: c in t.disk ==> !ReadsBack(t, c, id)
    ensures t.mem.Some? && !t.mem.value.Has(t.rows[id].keyVer)
  {
    RowsAreCurrent(s, id);
    t := RotationSucceeds(s, minted);
    PassedOver(s, t, s.mem.value.newest + 1, minted, id);
    OtherVersionIsLost(t, s.mem.value.newest + 1, minted, id);
  }

  lemma PassedOver(s: State, t: State, v: Version, minted: Key, id: RowId)
    requires id in s.rows && id.ShareRow? && s.rows[id].keyVer != v && MovedTo(s, t, v, minted)
    ensures id in t.rows && t.rows[id].keyVer != v && !Single(v, minted).Has(t.rows[id].keyVer)
  {
    assert t.rows[id] == s.rows[id];
  }

  /** An undisturbed rotation leaves every disciplined future readable exactly when no share has a credential. */
  lemma RotationSafeExactlyWhenNoShares(s: State, minted: Key) returns (t: State)
    requires Inv(s) && s.phase.Serving? && s.dbVer == Some(s.mem.value.newest) && s.mem.value.newest < 0xFFFF_FFFF
    ensures Reaches(s, RotationRun(minted), t) && t.phase.Serving?
    ensures Safe(t) <==> NoShares(s.rows)
  {
    t := RotationSucceeds(s, minted);
    if NoShares(s.rows) {
      InvIsSafe(t);
    } else {
      var id :| id in s.rows && id.ShareRow?;
      RowsAreCurrent(s, id);
      RotatedStrands(s, t, s.mem.value.newest + 1, minted, id);
    }
  }

  /** A row the rotation passed over. */
  lemma RotatedStrands(s: State, t: State, v: Version, minted: Key, id: RowId)
    requires id in s.rows && id.ShareRow? && s.rows[id].keyVer != v && MovedTo(s, t, v, minted)
    requires t.dbVer == Some(v) && t.disk == {Some(Single(v, minted))}
    ensures !Safe(t)
  {
    PassedOver(s, t, v, minted, id);
    StaleLabelIsLost(t, minted, id);
  }

  /** The step that cannot be taken back is the commit: a start after it compacts the file too. */
  lemma CommitSafeExactlyWhenNoShares(s: State, k: Key)
    requires InvAt(s, k) && s.phase.Extended?
    ensures Safe(Step(s, CommitReseal(true))) <==> NoShares(s.rows)
  {
    if NoShares(s.rows) {
      var _ := CommitKeeps(s, k, true);
      InvIsSafe(Step(s, CommitReseal(true)));
    } else {
      var id :| id in s.rows && id.ShareRow?;
      CommitStrands(s, k, id);
    }
  }

  lemma CommitStrands(s: State, k: Key, id: RowId)
    requires InvAt(s, k) && s.phase.Extended? && id in s.rows && id.ShareRow?
    ensures !Safe(Step(s, CommitReseal(true)))
  {
    var t := CommitSucceeds(s, k);
    var v, key := s.phase.ext.newest, s.phase.ext.keys[s.phase.ext.newest];
    BehindExtended(s, k, id);
    PassedOver(s, t, v, key, id);
    StaleLabelIsLost(t, key, id);
  }

  lemma BehindExtended(s: State, k: Key, id: RowId)
    requires InvAt(s, k) && s.phase.Extended? && id in s.rows
    ensures s.rows[id].keyVer != s.phase.ext.newest && s.disk != {}
    ensures forall c :: c in s.disk ==> Holds(c, s.phase.ext.newest, s.phase.ext.keys[s.phase.ext.newest])
  {
    RowsAreCurrent(s, id);
    ExtendedIs(s, k);
    NewestIsHeld(s.phase.ext);
  }

  lemma ExtendedIs(s: State, k: Key)
    requires InvAt(s, k) && s.phase.Extended?
    ensures s.disk == {Some(s.phase.ext)} && s.dbVer.Some? && s.phase.ext.newest == s.dbVer.value + 1
  {
  }

  lemma NewestIsHeld(r: Ring)
    ensures r.Has(r.newest) && Holds(Some(r), r.newest, r.keys[r.newest])
  {
  }

  /** The whole story from any current service: a credential is sealed, stored, and gone after the next rotation. */
  lemma ShareCredentialIsLost(s: State, r: nat, share: uint32, credential: bytes, minted: Key)
    returns (u: State, t: State)
    requires Inv(s) && s.phase.Serving? && s.dbVer == Some(s.mem.value.newest) && s.mem.value.newest < 0xFFFF_FFFF
    ensures Leads(s, [Seal(r, ShareRow(share), [], credential)] + [Store(r)], u)
    ensures Reaches(u, RotationRun(minted), t)
    ensures ShareRow(share) in t.rows && t.disk != {} && forall c :: c in t.disk ==> !ReadsBack(t, c, ShareRow(share))
  {
    var k :| InvAt(s, k);
    var id := ShareRow(share);
    var v := Step(s, Seal(r, id, [], credential));
    SealKeeps(s, k, r, id, [], credential);
    SealFitsExactlyWhenCurrent(s, k, r, id, [], credential);
    u := Step(v, Store(r));
    StoreKeeps(v, k, r);
    ReachesTwo(s, Seal(r, id, [], credential), v, Store(r), u);
    t := RotationLosesShares(u, minted, id);
  }

  /** Such a service is what a first start becomes. */
  lemma FirstStart(first: Key) returns (t: State)
    ensures var s := Stopped({None}, None, map[], map[]);
            Leads(s, [Generate(first, Published)] + ([Establish(true)] + ([Align(Published)] + [Probe(None, true)])), t)
    ensures Inv(t) && t.phase.Serving? && t.dbVer == Some(t.mem.value.newest) && t.mem == Some(Single(1, first))
  {
    var s := Stopped({None}, None, map[], map[]);
    var one: Ring := Single(1, first);
    var s1 := Step(s, Generate(first, Published));
    assert s1 == s.(disk := {Some(one)}, mem := Some(one), phase := Loaded);
    var s2 := Step(s1, Establish(true));
    var s3 := Step(s2, Align(Published));
    assert s3 == s2.(phase := Aligned);
    t := Step(s3, Probe(None, true));
    assert t == s3.(link := Some(first), phase := Serving);
    ReachesFour(s, Generate(first, Published), s1, Establish(true), s2, Align(Published), s3, Probe(None, true), t);
    assert InvAt(t, first);
  }

  // ---- Beginning a rotation.

  /**
   A service whose last rotation failed past its commit still holds the old ring. A second
   in-process rotation mints the committed version number again, and publishing it loses
   every row: beginning a rotation is safe exactly when the ring is not stale.
   */
  lemma {:induction false} BeginSafeExactlyWhenNotStale(s: State, minted: Key, k: Key)
    requires InvAt(s, k) && s.phase.Serving? && s.rows != map[]
    requires minted != k && s.mem.value.newest < 0xFFFF_FFFF
    ensures Safe(Step(s, BeginRotation(minted, Published))) <==> s.dbVer == Some(s.mem.value.newest)
  {
    var t := Step(s, BeginRotation(minted, Published));
    if s.dbVer == Some(s.mem.value.newest) {
      BeginKeeps(s, k, minted, Published);
      InvIsSafe(t);
    } else {
      StaleBeginLoses(s, minted, k);
      GetsHere(t);
      UnsafeWhenItGets(t, t);
    }
  }

  lemma {:induction false} StaleBeginLoses(s: State, minted: Key, k: Key)
    requires InvAt(s, k) && s.phase.Serving? && s.rows != map[]
    requires minted != k && s.mem.value.newest < 0xFFFF_FFFF
    requires s.dbVer != Some(s.mem.value.newest)
    ensures !Recoverable(Step(s, BeginRotation(minted, Published)))
  {
    var id :| id in s.rows;
    StaleRow(s, k, id);
    BeginPublishes(s, minted);
    var ext: Ring := WithNewKey(s.mem.value, minted).value;
    WrongKeyUnreadable(Step(s, BeginRotation(minted, Published)), Some(ext), id, k);
  }

  lemma StaleRow(s: State, k: Key, id: RowId)
    requires InvAt(s, k) && s.phase.Serving? && id in s.rows && s.dbVer != Some(s.mem.value.newest)
    ensures OpenRow(s.rows[id], k).Ok? && s.rows[id].keyVer == s.mem.value.newest + 1
    ensures |s.mem.value.order| == 1
  {
    assert s.dbVer == Some(s.rows[id].keyVer);
  }

  lemma BeginPublishes(s: State, minted: Key)
    requires s.phase.Serving? && s.mem.Some? && s.mem.value.newest < 0xFFFF_FFFF && |s.mem.value.order| == 1
    ensures var ext := WithNewKey(s.mem.value, minted).value;
            && ext.newest == s.mem.value.newest + 1 && ext.Has(ext.newest) && ext.keys[ext.newest] == minted
            && Step(s, BeginRotation(minted, Published)) == s.(disk := {Some(ext)}, phase := Extended(ext))
  {
  }

  /** The stale ring is reachable: every rotation may fail that way. */
  lemma StaleIsReachable(s: State, minted: Key) returns (t: State)
    requires Inv(s) && s.phase.Serving? && s.dbVer == Some(s.mem.value.newest) && s.mem.value.newest < 0xFFFF_FFFF
    ensures var run := [BeginRotation(minted, Published)] + ([CommitReseal(true)] + [Compact(NotPublished)]);
            Reaches(s, run, t) && (NoShares(s.rows) ==> Leads(s, run, t))
    ensures t.phase.Serving? && t.mem.Some? && t.dbVer.Some? && t.dbVer != Some(t.mem.value.newest)
        && t.rows.Keys == s.rows.Keys
  {
    var k :| InvAt(s, k);
    var s1 := BeginSucceeds(s, k, minted);
    var s2 := CommitSucceeds(s1, k);
    t := Step(s2, Compact(NotPublished));
    ReachesThree(s, BeginRotation(minted, Published), s1, CommitReseal(true), s2, Compact(NotPublished), t);
  }

  // ---- Recording the first version.

  /** A loaded ring of one version starts serving without a write, and seals its first record. */
  lemma ServesAndSeals(u: State, v: Version, key: Key, c: Contents, other: Key)
    requires u.phase.Loaded? && u.mem == Some(Single(v, key)) && u.dbVer == Some(v) && u.rows == map[]
    requires c in u.disk && Holds(c, v, other) && other != key
    ensures !Safe(u)
  {
    var id := ConfigRow([]);
    var u1 := Step(u, Align(NotPublished));
    assert u1 == u.(phase := Aligned);
    var u2 := Step(u1, Probe(None, true));
    assert u2 == u1.(link := Some(key), phase := Serving);
    var p := Pending(MintedRow(id, [], [], key, v), []);
    MintedReadsBack(id, [], [], key, v, other);
    var u3 := Step(u2, Seal(0, id, [], []));
    assert u3 == u2.(held := u2.held[0 := p]);
    var u4 := Step(u3, Store(0));
    assert u4.disk == u.disk && u4.rows[id] == p.row && u4.truth[id] == [];
    assert !ReadsBack(u4, c, id);
    GetsHere(u4);
    GetsFirst(u3, Store(0), u4, u4);
    GetsFirst(u2, Seal(0, id, [], []), u3, u4);
    GetsFirst(u1, Probe(None, true), u2, u4);
    GetsFirst(u, Align(NotPublished), u1, u4);
    UnsafeWhenItGets(u, u4);
  }

  lemma UnsafeFirst(s: State, a: Action)
    requires Enabled(s, a) && Disciplined(s, a) && !Safe(Step(s, a))
    ensures !Safe(s)
  {
    var u := Step(s, a);
    var run :| Legal(u, run) && !(Possible(u, run) && Recoverable(Run(u, run)));
    LegalIsPossible(u, run);
    LeadsCons(s, a, run, Run(u, run));
    assert Gets(s, Run(u, run));
    UnsafeWhenItGets(s, Run(u, run));
  }

  lemma {:induction false} LegalIsPossible(s: State, run: seq<Action>)
    requires Legal(s, run)
    ensures Possible(s, run)
    decreases |run|
  {
    if run != [] {
      LegalIsPossible(Step(s, run[0]), run[1..]);
    }
  }

  /** From a ring of several versions, an uncertain compaction leaves a one-version content to be found. */
  lemma DisagreementIsUnsafe(u: State, v: Version, key: Key, c: Contents, other: Key)
    requires u.phase.Loaded? && u.mem.Some? && u.mem.value.Has(v) && u.mem.value.keys[v] == key
    requires u.dbVer == Some(v) && u.rows == map[] && c in u.disk && Holds(c, v, other) && other != key
    ensures !Safe(u)
  {
    var m, one: Ring := u.mem.value, Single(v, key);
    if m.order == [v] {
      OnlyOne(m, v);
      ServesAndSeals(u, v, key, c, other);
    } else {
      var u1 := Step(u, Align(Uncertain));
      assert u1 == u.(disk := u.disk + {Some(one)}, mem := None, phase := Down);
      var u2 := Step(u1, Load(Some(one)));
      ServesAndSeals(u2, v, key, c, other);
      UnsafeFirst(u1, Load(Some(one)));
      UnsafeFirst(u, Align(Uncertain));
    }
  }

  /** Recording the first version is safe exactly when every content of the file agrees on its key. */
  lemma EstablishSafeExactlyWhenSettled(s: State, k: Key)
    requires InvAt(s, k) && Enabled(s, Establish(true))
    ensures Safe(Step(s, Establish(true))) <==> NewestSettled(s)
  {
    var t := Step(s, Establish(true));
    var m := s.mem.value;
    var v, key := m.newest, m.keys[m.newest];
    if NewestSettled(s) {
      var _ := EstablishKeeps(s, k, true);
      InvIsSafe(t);
    } else {
      var c :| c in s.disk && !Holds(c, v, key);
      assert s.rows == map[];
      if c.Some? && c.value.Has(v) {
        DisagreementIsUnsafe(t, v, key, c, c.value.keys[v]);
      } else {
        GetsHere(t);
        UnsafeWhenItGets(t, t);
      }
    }
  }

  /** And the disagreement is reachable: a start reads the key whose first publication was uncertain. */
  lemma FirstKeyCanBeUnsettled(minted: Key) returns (t: State)
    ensures Gets(Stopped({None}, None, map[], map[]), t)
    ensures Enabled(t, Establish(true)) && !NewestSettled(t)
  {
    var ring: Ring := Single(1, minted);
    var s0 := Stopped({None}, None, map[], map[]);
    var s1 := Step(s0, Generate(minted, Uncertain));
    t := Step(s1, Load(Some(ring)));
    GetsHere(t);
    GetsFirst(s1, Load(Some(ring)), t, t);
    GetsFirst(s0, Generate(minted, Uncertain), s1, t);
    assert None in t.disk;
  }
}
