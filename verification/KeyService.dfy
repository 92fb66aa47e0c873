/** The service object that runs the protocol of module `Rotation` (auth/rotate.go, keystate.go, masterkey.go). */
module KeyService {
  import opened Octets
  import opened KeyRings
  import opened Sealing
  import opened Rotation

  datatype ServiceError =
    | NoKeyRing
    | RingFailed(ring: RingError)
    | PublicationFailed(outcome: Outcome)
    | StoreFailed
    | KeyVersionMissing
    | SampleUnreadable

  datatype Report = Report(oldVersion: Version, newVersion: Version)

  /** A rotation's first write is made: there is a next version and the longer ring still fits the format. */
  predicate Extends(ring: Option<Ring>, first: Outcome) {
    ring.Some? && ring.value.newest < 0xFFFF_FFFF && |ring.value.order| < 0xFFFF && first.Published?
  }

  /** A rotation's transaction lands, whatever becomes of the write after it. */
  predicate Commits(ring: Option<Ring>, rows: map<RowId, SealedRow>, minted: Key, first: Outcome, committed: bool) {
    && Extends(ring, first)
    && committed
    && ResealAll(rows, WithNewKey(ring.value, minted).value).Some?
  }

  /** Under the invariant every row opens, so a current ring's transaction lands when its writes do. */
  lemma {:induction false} CommitsWhenCurrent(s: State, minted: Key)
    requires s.phase.Serving? && s.mem.Some?
    ensures Inv(s) && s.dbVer == Some(s.mem.value.newest) && s.mem.value.newest < 0xFFFF_FFFF ==>
              Commits(s.mem, s.rows, minted, Published, true)
  {
    if Inv(s) && s.dbVer == Some(s.mem.value.newest) && s.mem.value.newest < 0xFFFF_FFFF {
      var k :| InvAt(s, k);
      BeginKeeps(s, k, minted, Published);
      ResealNeverAborts(Step(s, BeginRotation(minted, Published)), k);
    }
  }

  /** What a landed transaction makes of the rows. */
  lemma CommittedMeans(s: State, t: State, ext: Ring, minted: Key)
    requires s.phase.Serving? && s.mem.Some? && WithNewKey(s.mem.value, minted) == Ok(ext) && t.truth == s.truth
    ensures ResealAll(s.rows, ext) == Some(t.rows) ==> Rekeyed(s.rows, ext, t.rows, s.mem.value.newest + 1, minted)
    ensures ResealAll(s.rows, ext) == Some(t.rows) && Inv(s) && s.dbVer == Some(s.mem.value.newest) ==>
              MovedTo(s, t, s.mem.value.newest + 1, minted)
  {
    ResealAllExactlyWhen(s.rows, ext);
    if ResealAll(s.rows, ext) == Some(t.rows) && Inv(s) && s.dbVer == Some(s.mem.value.newest) {
      var k :| InvAt(s, k);
      ExtendedHoldsOld(s, k, ext, minted);
      RekeyedMeans(s, t, k, ext, s.mem.value.newest + 1, minted);
    }
  }

  lemma ExtendedHoldsOld(s: State, k: Key, ext: Ring, minted: Key)
    requires InvAt(s, k) && s.phase.Serving? && WithNewKey(s.mem.value, minted) == Ok(ext)
    requires s.dbVer == Some(s.mem.value.newest)
    ensures ext.Has(s.dbVer.value) && ext.keys[s.dbVer.value] == k
  {
  }

  lemma RekeyedMeans(s: State, t: State, k: Key, ext: Ring, v: Version, minted: Key)
    requires RowsOpen(s, k) && s.dbVer.Some? && ext.Has(s.dbVer.value) && ext.keys[s.dbVer.value] == k
    requires Rekeyed(s.rows, ext, t.rows, v, minted) && t.truth == s.truth
    ensures MovedTo(s, t, v, minted)
  {
    forall id | id in s.rows
      ensures IsResealed(id) ==> t.rows[id].id == id && OpenRow(t.rows[id], minted) == Ok(t.truth[id])
    {
      assert RowRekeyed(id, s.rows[id], ext, t.rows[id], v, minted);
    }
  }

  /** The version a start commits to: the recorded one, or the ring's newest when none is. */
  function Target(ring: Ring, dbVer: Option<Version>): Version {
    if dbVer.Some? then dbVer.value else ring.newest
  }

  /** What a start needs of the file and its environment. */
  predicate Starts(ring: Ring, dbVer: Option<Version>, rows: map<RowId, SealedRow>, stored: bool, aligned: Outcome,
                   sample: Option<RowId>, readable: bool)
  {
    (dbVer.Some? || stored) && Settles(ring, Target(ring, dbVer), rows, aligned, sample, readable)
  }

  /** The file comes down to version `v` and the probe passes under its key. */
  predicate Settles(ring: Ring, v: Version, rows: map<RowId, SealedRow>, aligned: Outcome, sample: Option<RowId>,
                    readable: bool)
  {
    && ring.Has(v)
    && (ring.order == [v] || aligned.Published?)
    && ProbePasses(rows, Single(v, ring.keys[v]), sample, readable)
  }

  /**
   `file`, `dbVer` and `rows` outlive the process; `ring` and the link cipher's key do not. The outcomes of file
   replacements, of database commits and of key generation arrive as arguments.
   */
  class Service {
    var file: set<Contents>
    var dbVer: Option<Version>
    var rows: map<RowId, SealedRow>
    var ring: Option<Ring>
    var link: Option<Key>
    ghost var truth: map<RowId, bytes>
    ghost var held: map<nat, Pending>
    ghost var phase: Phase

    ghost function Abs(): State
      reads this
    {
      State(file, dbVer, rows, ring, link, held, phase, truth)
    }

    constructor (found: Contents, dbVer: Option<Version>, rows: map<RowId, SealedRow>, ghost truth: map<RowId, bytes>)
      ensures Abs() == Stopped({found}, dbVer, rows, truth)
    {
      this.file, this.dbVer, this.rows, this.ring, this.link := {found}, dbVer, rows, None, None;
      this.truth, this.held, this.phase := truth, map[], Down;
    }

    /** `persist` and `wrapPublication`. */
    method Persist(r: Ring, o: Outcome) returns (err: Option<ServiceError>)
      modifies `file
      ensures file == Publish(old(file), r, o)
      ensures err.None? <==> Persisted(r, o)
    {
      var b := Marshal(r);
      if b.Err? {
        return Some(RingFailed(b.error));
      }
      if o.Published? {
        file := {Some(r)};
        return None;
      }
      if o.Uncertain? {
        file := file + {Some(r)};
      }
      err := Some(PublicationFailed(o));
    }

    /** What a rotation asks of one row: open it under the key that sealed it, seal it under the newest. */
    static method MoveRow(row: SealedRow, ext: Ring) returns (moved: Option<SealedRow>)
      ensures moved.Some? <==> Reseals(row, ext)
      ensures moved.Some? ==> moved.value == ResealedRow(row, ext)
    {
      if !ext.Has(row.keyVer) {
        return None;
      }
      var blob := ResealRow(row, ext.keys[row.keyVer], ext.keys[ext.newest], ext.newest);
      if blob.Err? {
        return None;
      }
      moved := Some(Moved(row, blob.value, ext.newest));
    }

    /** The row walks of the reseal transaction: the first row that will not open abandons all of them. */
    method ResealRows(ext: Ring) returns (moved: Option<map<RowId, SealedRow>>)
      ensures moved == ResealAll(rows, ext)
      ensures moved.Some? <==> forall id :: id in rows && IsResealed(id) ==> OpensIn(rows[id], ext)
      ensures moved.Some? ==> Rekeyed(rows, ext, moved.value, ext.newest, ext.keys[ext.newest])
    {
      ResealAllExactlyWhen(rows, ext);
      var todo := set id | id in rows && Walked(id);
      var done := rows;
      while todo != {}
        invariant todo <= rows.Keys && forall id :: id in todo ==> Walked(id)
        invariant MovedSoFar(rows, ext, done, todo)
        decreases |todo|
      {
        var id :| id in todo;
        var row := MoveRow(rows[id], ext);
        if row.None? {
          OneRowAborts(rows, ext, id);
          return None;
        }
        MovedOneMore(rows, ext, done, todo, id);
        done := done[id := row.value];
        todo := todo - {id};
      }
      MovedAll(rows, ext, done);
      moved := Some(done);
    }

    /** Step 1 of a rotation: write a ring holding the old key and a new one. */
    method WriteExtended(minted: Key, first: Outcome) returns (err: Option<ServiceError>)
      requires ring.Some? && phase.Serving?
      modifies `file, `phase
      ensures Abs() == Step(old(Abs()), BeginRotation(minted, first))
      ensures err.None? <==> Extends(ring, first)
      ensures err.None? ==> phase.Extended? && WithNewKey(ring.value, minted) == Ok(phase.ext)
      ensures err.Some? ==> phase.Serving?
    {
      var extended := WithNewKey(ring.value, minted);
      if extended.Err? {
        return Some(RingFailed(extended.error));
      }
      err := Persist(extended.value, first);
      if err.None? {
        phase := Extended(extended.value);
      }
    }

    /** Step 2: every row and the version, in one transaction. */
    method CommitRows(ext: Ring, committed: bool) returns (err: Option<ServiceError>)
      requires phase == Extended(ext)
      modifies `rows, `dbVer, `phase
      ensures Abs() == Step(old(Abs()), CommitReseal(committed))
      ensures err.None? <==> committed && ResealAll(old(rows), ext).Some?
      ensures err.None? ==>
                && phase == Resealed(ext) && dbVer == Some(ext.newest)
                && Some(rows) == ResealAll(old(rows), ext)
      ensures err.Some? ==> phase.Serving?
    {
      var moved := ResealRows(ext);
      if moved.None? || !committed {
        phase := Serving;
        return Some(StoreFailed);
      }
      rows, dbVer, phase := moved.value, Some(ext.newest), Resealed(ext);
      err := None;
    }

    /** Step 3: reduce the file to the new key alone. */
    method WriteCompacted(ext: Ring, second: Outcome) returns (err: Option<ServiceError>)
      requires phase == Resealed(ext)
      modifies `file, `phase
      ensures Abs() == Step(old(Abs()), Compact(second))
      ensures err.None? <==> second.Published?
      ensures err.None? ==> phase.Compacted? && CompactTo(ext, ext.newest) == Some(phase.ring)
      ensures err.Some? ==> phase.Serving?
    {
      var compacted := CompactTo(ext, ext.newest);
      err := Persist(compacted.value, second);
      phase := if err.None? then Compacted(compacted.value) else Serving;
    }

    /**
     `RotateMasterKey`. Whatever the environment answers, the new state is reached by steps of
     the protocol, so every theorem about its runs holds of every prefix of this call too.
     */
    method RotateMasterKey(minted: Key, first: Outcome, committed: bool, second: Outcome)
      returns (rep: Result<Report, ServiceError>, ghost run: seq<Action>)
      requires ring.Some? ==> phase.Serving?
      modifies this
      ensures Reaches(old(Abs()), run, Abs())
      ensures old(ring).Some? && old(dbVer) == Some(old(ring).value.newest) && (committed ==> NoShares(old(rows))) ==>
                Legal(old(Abs()), run)
      ensures rep.Ok? <==> Commits(old(ring), old(rows), minted, first, committed) && second.Published?
      ensures Inv(old(Abs())) && old(ring).Some? && old(dbVer) == Some(old(ring).value.newest) ==>
                old(ring).value.newest < 0xFFFF_FFFF && first.Published? && committed && second.Published? ==> rep.Ok?
      ensures rep.Ok? ==>
                Rekeyed(old(rows), WithNewKey(old(ring).value, minted).value, rows, old(ring).value.newest + 1, minted)
      ensures Inv(old(Abs())) && old(ring).Some? && old(dbVer) == Some(old(ring).value.newest) && rep.Ok? ==>
                MovedTo(old(Abs()), Abs(), old(ring).value.newest + 1, minted)
      ensures if Commits(old(ring), old(rows), minted, first, committed)
              then dbVer == Some(old(ring).value.newest + 1)
                   && Some(rows) == ResealAll(old(rows), WithNewKey(old(ring).value, minted).value)
              else dbVer == old(dbVer) && rows == old(rows)
      ensures rep.Ok? ==>
                && rep.value == Report(old(ring).value.newest, old(ring).value.newest + 1)
                && ring == Some(Single(rep.value.newVersion, minted))
      ensures rep.Err? ==> ring == old(ring)
      ensures old(ring).None? ==> rep == Err(NoKeyRing)
      ensures link == old(link) && truth == old(truth)
      ensures ring.Some? ==> phase.Serving?
    {
      ghost var s := Abs();
      run := [];
      if ring.None? {
        return Err(NoKeyRing), run;
      }
      var current := ring.value;
      CommitsWhenCurrent(s, minted);
      var err := WriteExtended(minted, first);
      RunSnoc(s, run, s, BeginRotation(minted, first));
      run := run + [BeginRotation(minted, first)];
      if err.Some? {
        return Err(err.value), run;
      }
      var ext: Ring := WithNewKey(current, minted).value;
      err, run := FinishRotation(ext, committed, second, s, run);
      if err.Some? {
        return Err(err.value), run;
      }
      CommittedMeans(s, Abs(), ext, minted);
      rep := Ok(Report(current.newest, ext.newest));
    }

    /** Steps 2 and 3 of a rotation, and the new ring in memory once both are durable. */
    method FinishRotation(ext: Ring, committed: bool, second: Outcome, ghost s: State, ghost begun: seq<Action>)
      returns (err: Option<ServiceError>, ghost run: seq<Action>)
      requires phase == Extended(ext) && Reaches(s, begun, Abs())
      modifies this
      ensures Reaches(s, run, Abs())
      ensures Legal(s, begun) && (committed ==> NoShares(old(rows))) ==> Legal(s, run)
      ensures err.None? <==> committed && ResealAll(old(rows), ext).Some? && second.Published?
      ensures if committed && ResealAll(old(rows), ext).Some?
              then dbVer == Some(ext.newest) && Some(rows) == ResealAll(old(rows), ext)
              else dbVer == old(dbVer) && rows == old(rows)
      ensures ring == if err.None? then CompactTo(ext, ext.newest) else old(ring)
      ensures link == old(link) && truth == old(truth)
      ensures phase.Serving?
    {
      run := begun;
      ghost var s1 := Abs();
      err := CommitRows(ext, committed);
      RunSnoc(s, run, s1, CommitReseal(committed));
      run := run + [CommitReseal(committed)];
      if err.Some? {
        return;
      }
      err, run := CompactAndSwap(ext, second, s, run);
    }

    /** What is left of a rotation after its commit. */
    method CompactAndSwap(ext: Ring, second: Outcome, ghost s: State, ghost committed: seq<Action>)
      returns (err: Option<ServiceError>, ghost run: seq<Action>)
      requires phase == Resealed(ext) && Reaches(s, committed, Abs())
      modifies this
      ensures Reaches(s, run, Abs())
      ensures Legal(s, committed) ==> Legal(s, run)
      ensures err.None? <==> second.Published?
      ensures dbVer == old(dbVer) && rows == old(rows) && link == old(link) && truth == old(truth) && phase.Serving?
      ensures ring == if err.None? then CompactTo(ext, ext.newest) else old(ring)
    {
      run := committed;
      ghost var s2 := Abs();
      err := WriteCompacted(ext, second);
      RunSnoc(s, run, s2, Compact(second));
      run := run + [Compact(second)];
      if err.Some? {
        return;
      }
      ghost var s3 := Abs();
      ring, phase := CompactTo(ext, ext.newest), Serving;
      RunSnoc(s, run, s3, Swap);
      run := run + [Swap];
    }

    /** `alignRing`: refuse a ring without the version the database names, or bring the file down to it. */
    method AlignRing(aligned: Outcome) returns (err: Option<ServiceError>)
      requires ring.Some? && dbVer.Some? && phase.Loaded?
      modifies `file, `ring, `phase
      ensures Abs() == Step(old(Abs()), Align(aligned))
      ensures var loaded, v := old(ring).value, dbVer.value;
              && (err.None? <==> loaded.Has(v) && (loaded.order == [v] || aligned.Published?))
              && (err.None? ==> phase.Aligned? && ring == Some(Single(v, loaded.keys[v])))
      ensures err.Some? ==> phase.Down? && ring.None?
    {
      var loaded, v := ring.value, dbVer.value;
      var compacted := CompactTo(loaded, v);
      if compacted.None? {
        ring, phase := None, Down;
        return Some(KeyVersionMissing);
      }
      if loaded.order == [v] {
        OnlyOne(loaded, v);
        phase := Aligned;
        return None;
      }
      err := Persist(compacted.value, aligned);
      if err.Some? {
        ring, phase := None, Down;
      } else {
        ring, phase := compacted, Aligned;
      }
    }

    /** `checkMasterKey`, and the link cipher built from the key that passed it. */
    method CheckMasterKey(sample: Option<RowId>, readable: bool) returns (err: Option<ServiceError>)
      requires ring.Some? && phase.Aligned? && IsSample(rows, sample)
      modifies `ring, `link, `phase
      ensures Abs() == Step(old(Abs()), Probe(sample, readable))
      ensures err.None? <==> ProbePasses(rows, old(ring).value, sample, readable)
      ensures err.None? ==>
                phase.Serving? && ring == old(ring) && link == Some(old(ring).value.keys[old(ring).value.newest])
      ensures err.Some? ==> phase.Down? && ring.None?
    {
      if !readable {
        ring, phase := None, Down;
        return Some(StoreFailed);
      }
      if sample.Some? {
        var row := rows[sample.value];
        if !ring.value.Has(row.keyVer) || OpenRow(row, ring.value.keys[row.keyVer]).Err? {
          ring, phase := None, Down;
          return Some(SampleUnreadable);
        }
      }
      link, phase := Some(ring.value.keys[ring.value.newest]), Serving;
      err := None;
    }

    /** `startupKeyState`: establish the version, refuse a ring without it, compact the file, probe a second factor. */
    method StartupKeyState(stored: bool, aligned: Outcome, sample: Option<RowId>, readable: bool)
      returns (err: Option<ServiceError>, ghost run: seq<Action>)
      requires ring.Some? && phase.Loaded? && IsSample(rows, sample)
      modifies this
      ensures Reaches(old(Abs()), run, Abs())
      ensures old(dbVer).Some? || !stored || NewestSettled(old(Abs())) ==> Legal(old(Abs()), run)
      ensures err.None? <==> Starts(old(ring).value, old(dbVer), old(rows), stored, aligned, sample, readable)
      ensures dbVer == if old(dbVer).None? && !stored then None else Some(Target(old(ring).value, old(dbVer)))
      ensures err.None? ==>
                && phase.Serving? && link == Some(old(ring).value.keys[dbVer.value])
                && ring == Some(Single(dbVer.value, old(ring).value.keys[dbVer.value]))
      ensures err.Some? ==> phase.Down? && ring.None?
      ensures rows == old(rows)
    {
      ghost var s := Abs();
      run := [];
      if dbVer.None? {
        err := EstablishVersion(stored);
        RunSnoc(s, run, s, Establish(stored));
        run := run + [Establish(stored)];
        if err.Some? {
          return;
        }
      }
      err, run := FinishStart(aligned, sample, readable, s, run);
    }

    /** A database that names no version is given the ring's newest. */
    method EstablishVersion(stored: bool) returns (err: Option<ServiceError>)
      requires ring.Some? && phase.Loaded? && dbVer.None?
      modifies `dbVer, `ring, `phase
      ensures Abs() == Step(old(Abs()), Establish(stored))
      ensures err.None? <==> stored
      ensures err.None? ==> dbVer == Some(old(ring).value.newest) && ring == old(ring) && phase.Loaded?
      ensures err.Some? ==> phase.Down? && ring.None? && dbVer.None?
    {
      if stored {
        dbVer, err := Some(ring.value.newest), None;
      } else {
        ring, phase, err := None, Down, Some(StoreFailed);
      }
    }

    /** The last two checks of a start, on a recorded version. */
    method FinishStart(aligned: Outcome, sample: Option<RowId>, readable: bool, ghost s: State,
            ghost begun: seq<Action>)
      returns (err: Option<ServiceError>, ghost run: seq<Action>)
      requires ring.Some? && dbVer.Some? && phase.Loaded? && IsSample(rows, sample) && Reaches(s, begun, Abs())
      modifies `file, `ring, `link, `phase
      ensures Reaches(s, run, Abs()) && (Legal(s, begun) ==> Legal(s, run))
      ensures err.None? <==> Settles(old(ring).value, dbVer.value, rows, aligned, sample, readable)
      ensures err.None? ==>
                && phase.Serving? && link == Some(old(ring).value.keys[dbVer.value])
                && ring == Some(Single(dbVer.value, old(ring).value.keys[dbVer.value]))
      ensures err.Some? ==> phase.Down? && ring.None?
    {
      run := begun;
      ghost var s1 := Abs();
      err := AlignRing(aligned);
      RunSnoc(s, run, s1, Align(aligned));
      run := run + [Align(aligned)];
      if err.Some? {
        return;
      }
      ghost var s2 := Abs();
      err := CheckMasterKey(sample, readable);
      RunSnoc(s, run, s2, Probe(sample, readable));
      run := run + [Probe(sample, readable)];
    }

    /**
     `OpenMasterKey`: load the ring or mint the first one, then the startup checks. It succeeds
     exactly when the ring it settles on can start; under the invariant a recorded version asks
     for no more than that one file write and the reads land.
     */
    method OpenMasterKey(found: Contents, minted: Key, generated: Outcome, stored: bool, aligned: Outcome,
                         sample: Option<RowId>, readable: bool)
      returns (err: Option<ServiceError>, ghost run: seq<Action>)
      requires phase.Down? && ring.None? && found in file && IsSample(rows, sample)
      modifies this
      ensures Reaches(old(Abs()), run, Abs())
      ensures err.None? <==>
                && (found.Some? || generated.Published?)
                && Starts(if found.Some? then found.value else Single(1, minted), old(dbVer), old(rows), stored,
                          aligned, sample, readable)
      ensures err.None? ==>
                && phase.Serving? && dbVer.Some? && ring.Some?
                && var r: Ring := if found.Some? then found.value else Single(1, minted);
                   && dbVer.value == Target(r, old(dbVer)) && ring.value == Single(dbVer.value, r.keys[dbVer.value])
                   && link == Some(r.keys[dbVer.value])
      ensures err.Some? ==> phase.Down? && ring.None?
      ensures rows == old(rows)
      ensures old(dbVer).Some? ==> Legal(old(Abs()), run)
      ensures Inv(old(Abs())) && old(dbVer).Some? ==>
                Inv(Abs()) && (aligned.Published? && readable ==> err.None?)
    {
      ghost var s := Abs();
      var first: Action;
      if found.Some? {
        first := Load(found);
        ring, phase := found, Loaded;
      } else {
        first := Generate(minted, generated);
        var mint: Ring := Single(1, minted);
        err := Persist(mint, generated);
        if err.Some? {
          run := [first] + [];
          RunCons(s, first, []);
          OpeningPromised(s, run, found, sample);
          return err, run;
        }
        ring, phase := Some(mint), Loaded;
      }
      ghost var s1 := Abs();
      ghost var rest;
      err, rest := StartupKeyState(stored, aligned, sample, readable);
      run := [first] + rest;
      RunCons(s, first, rest);
      OpeningPromised(s, run, found, sample);
    }

    /** What the invariant adds to a start on a recorded version. */
    static lemma OpeningPromised(s: State, run: seq<Action>, found: Contents, sample: Option<RowId>)
      requires s.phase.Down? && found in s.disk && IsSample(s.rows, sample)
      ensures Inv(s) && Legal(s, run) ==> Possible(s, run) && Inv(Run(s, run))
      ensures Inv(s) && s.dbVer.Some? ==>
                found.Some? && Starts(found.value, s.dbVer, s.rows, true, Published, sample, true)
    {
      if Inv(s) && Legal(s, run) {
        RunKeeps(s, run);
      }
      if Inv(s) && s.dbVer.Some? {
        var k :| InvAt(s, k);
        assert Holds(found, s.dbVer.value, k);
      }
    }
  }
}
