/** The bounded archive (files/archive.go, and the names of files/zip.go). */
module Archive {
  import opened Octets
  import opened Text
  import opened Decimals
  import opened EntryReader

  const MAX_ENTRIES := 200_000

  const MAX_BYTES := 0x8_0000_0000

  const ZIP_NAME_MAX := 65534

  const MARKER_NAME: Text := "__stowcloud_incomplete__.txt"

  datatype Entry = Entry(relPath: Text, isDir: bool, readable: bool, size: nat)

  datatype ArchiveError = Bounded | BadName | WriteFailed | WalkFailed

  /** A member of the archive: the name written, its bytes, and the path it was added for. */
  datatype Member = Member(name: Text, data: bytes, relPath: Text)

  function TrimSlashes(s: Text): Text {
    if s != [] && s[|s| - 1] == '/' then TrimSlashes(s[..|s| - 1]) else s
  }

  /** `CleanZipName`. */
  function CleanZipName(name: Text): Option<Text> {
    if name == [] || (0 as char) in name || '\\' in name || name[0] == '/' then None
    else
      var clean := TrimSlashes(name);
      if clean == [] || |clean| > ZIP_NAME_MAX then None
      else if exists seg :: seg in Split(clean, '/') && (seg == "" || seg == "." || seg == "..") then None
      else Some(clean)
  }

  /** A name that stays inside the directory an archive is extracted to, on every system. */
  ghost predicate StaysInside(name: Text) {
    && name != [] && |name| <= 65534 && name[0] != '/' && name[|name| - 1] != '/'
    && (forall k :: 0 <= k < |name| ==> name[k] != '\\' && name[k] as int != 0)
    && (forall seg :: seg in Split(name, '/') ==> seg != "" && seg != "." && seg != "..")
  }

  lemma {:induction false} TrimmedSlashes(s: Text)
    ensures var clean := TrimSlashes(s);
            && |clean| <= |s| && s[..|clean|] == clean && (forall k :: |clean| <= k < |s| ==> s[k] == '/')
            && (clean != [] ==> clean[|clean| - 1] != '/')
  {
    if s != [] && s[|s| - 1] == '/' {
      TrimmedSlashes(s[..|s| - 1]);
    }
  }

  /** A name is taken exactly when what is left of it without trailing slashes stays inside, and is written as that. */
  lemma CleanNameExactlyWhen(name: Text, clean: Text)
    ensures CleanZipName(name) == Some(clean) <==>
              && |clean| <= |name| && name[..|clean|] == clean && (forall k :: |clean| <= k < |name| ==> name[k] == '/')
              && StaysInside(clean)
  {
    TrimmedSlashes(name);
    var trimmed := TrimSlashes(name);
    if |clean| <= |name| && name[..|clean|] == clean && (forall k :: |clean| <= k < |name| ==> name[k] == '/')
       && StaysInside(clean) {
      assert name[|clean| - 1] == clean[|clean| - 1];
      assert |clean| == |trimmed|;
      SameBytes(name, clean);
    }
    if CleanZipName(name).Some? {
      SameBytes(name, trimmed);
    }
  }

  /** Trailing slashes hide no byte. */
  lemma SameBytes(name: Text, clean: Text)
    requires |clean| <= |name| && name[..|clean|] == clean && forall k :: |clean| <= k < |name| ==> name[k] == '/'
    ensures (0 as char) in name <==> (0 as char) in clean
    ensures '\\' in name <==> '\\' in clean
  {
    forall c: Byte | c != '/' ensures c in name <==> c in clean {
      if c in name {
        var k :| 0 <= k < |name| && name[k] == c;
        assert clean[k] == c;
      }
    }
  }

  /** One call of the walk: an entry, its stream if there is one, and whether writing it breaks the connection. */
  datatype Visit = Visit(entry: Entry, source: Option<File>, broken: bool)

  /** The writer: what it holds, and its sticky error. */
  class ZipWriter {
    var members: seq<Member>
    var failed: bool

    constructor ()
      ensures members == [] && !failed
    {
      members, failed := [], false;
    }

    /** `AddDir`. A refused name leaves no trace; a failed write ends the archive. */
    method AddDir(rel: Text, broken: bool) returns (err: Option<ArchiveError>)
      modifies this
      ensures err == WriteError(rel, old(failed) || broken)
      ensures failed == (old(failed) || err == Some(WriteFailed))
      ensures if err.None? then members == old(members) + [Member(CleanZipName(rel).value + "/", [], rel)]
              else members == old(members)
    {
      if CleanZipName(rel).None? {
        return Some(BadName);
      }
      if failed || broken {
        failed := true;
        return Some(WriteFailed);
      }
      members := members + [Member(CleanZipName(rel).value + "/", [], rel)];
      return None;
    }

    /** `AddBytes`. */
    method AddBytes(rel: Text, body: bytes, broken: bool) returns (err: Option<ArchiveError>)
      modifies this
      ensures err == WriteError(rel, old(failed) || broken)
      ensures failed == (old(failed) || err == Some(WriteFailed))
      ensures if err.None? then members == old(members) + [Member(CleanZipName(rel).value, body, rel)]
              else members == old(members)
    {
      if CleanZipName(rel).None? {
        return Some(BadName);
      }
      if failed || broken {
        failed := true;
        return Some(WriteFailed);
      }
      members := members + [Member(CleanZipName(rel).value, body, rel)];
      return None;
    }

    /** `AddFile`: the body is copied until it says it ends. */
    method AddFile(rel: Text, body: Reader, buffer: nat, broken: bool) returns (err: Option<ArchiveError>)
      requires body.read == 0 && !body.incomplete && buffer > 0
      modifies this, body, body.source
      ensures err == WriteError(rel, old(failed) || broken)
      ensures failed == (old(failed) || err == Some(WriteFailed))
      ensures err.None? ==>
                var copied := old(body.Pending());
                && body.incomplete == copied.1 && body.read == |copied.0| && body.read <= old(body.remaining)
                && members == old(members) + [Member(CleanZipName(rel).value, copied.0, rel)]
      ensures err.Some? ==> members == old(members)
    {
      if CleanZipName(rel).None? {
        return Some(BadName);
      }
      if failed {
        return Some(WriteFailed);
      }
      var data := CopyAll(body, buffer);
      if broken {
        failed := true;
        return Some(WriteFailed);
      }
      members := members + [Member(CleanZipName(rel).value, data, rel)];
      return None;
    }
  }

  /** A name is refused before anything is written. */
  function WriteError(rel: Text, broken: bool): Option<ArchiveError> {
    if CleanZipName(rel).None? then Some(BadName) else if broken then Some(WriteFailed) else None
  }

  function Total(ms: seq<Member>): nat {
    if ms == [] then 0 else Total(ms[..|ms| - 1]) + |ms[|ms| - 1].data|
  }

  lemma TotalSnoc(ms: seq<Member>, m: Member)
    ensures Total(ms + [m]) == Total(ms) + |m.data|
  {
    assert (ms + [m])[..|ms|] == ms;
  }

  /** The paths of what was written. */
  function Paths(ms: seq<Member>): set<Text> {
    set m | m in ms :: m.relPath
  }

  lemma PathsSnoc(ms: seq<Member>, m: Member)
    ensures Paths(ms + [m]) == Paths(ms) + {m.relPath}
  {
    assert m in ms + [m];
    forall x | x in Paths(ms) ensures x in Paths(ms + [m]) {
      var y :| y in ms && y.relPath == x;
      assert y in ms + [m];
    }
  }

  /** The entry can be archived whole: it is readable, and a file gives exactly its declared bytes without failing. */
  ghost predicate Whole(v: Visit) {
    && v.entry.readable
    && (!v.entry.isDir ==>
          && v.source.Some?
          && |Content(Given(v.source.value))| == v.entry.size && !Fails(Given(v.source.value)))
  }

  /** What an entry leaves in the archive. */
  function Placed(v: Visit): seq<Member> {
    var e := v.entry;
    if !e.readable || CleanZipName(e.relPath).None? then []
    else if e.isDir then [Member(CleanZipName(e.relPath).value + "/", [], e.relPath)]
    else if v.source.None? then []
    else [Member(CleanZipName(e.relPath).value, Copied(Given(v.source.value), e.size).0, e.relPath)]
  }

  /** Why a visit ends the walk, if it does: a budget first, then the name, then the connection. */
  function Stops(count: nat, packed: nat, v: Visit): Option<ArchiveError> {
    var e := v.entry;
    if count >= MAX_ENTRIES then Some(Bounded)
    else if !e.readable then None
    else if !e.isDir && (packed >= MAX_BYTES || packed + e.size > MAX_BYTES) then Some(Bounded)
    else if !e.isDir && v.source.None? then None
    else WriteError(e.relPath, v.broken)
  }

  /**
   What an entry comes to, by its own fields: nothing when it is unreadable or a file without a stream,
   a name with a slash for a directory, and otherwise the file's first bytes up to the declared size.
   */
  lemma PlacedMeans(v: Visit, count: nat, packed: nat)
    ensures Stops(count, packed, v) == Some(Bounded) <==>
              || count >= 200_000
              || (v.entry.readable && !v.entry.isDir
                  && (packed >= 0x8_0000_0000 || packed + v.entry.size > 0x8_0000_0000))
    ensures !v.entry.readable || (!v.entry.isDir && v.source.None?) ==> Placed(v) == []
    ensures Stops(count, packed, v).None? && v.entry.readable && (v.entry.isDir || v.source.Some?) ==>
              var rel, clean := v.entry.relPath, CleanZipName(v.entry.relPath);
              && clean.Some?
              && if v.entry.isDir then Placed(v) == [Member(clean.value + "/", [], rel)]
                 else
                   var content := Content(Given(v.source.value));
                   Placed(v) == [Member(clean.value, content[..Min(v.entry.size, |content|)], rel)]
  {
    if v.source.Some? {
      FlaggedExactlyWhen(v.source.value, v.entry.size);
    }
  }

  class Builder {
    const z: ZipWriter
    var entries: nat
    var packed: nat
    var incomplete: bool
    var names: set<Text>

    /** Within both budgets, counting every byte and remembering every path that was written. */
    ghost predicate Valid()
      reads this, z
    {
      && |z.members| <= entries <= MAX_ENTRIES && packed <= MAX_BYTES && packed == Total(z.members)
      && names == Paths(z.members) && |names| <= entries && AllWritten(z.members)
    }

    constructor ()
      ensures Valid() && fresh(z) && z.members == [] && !incomplete && entries == 0 && !z.failed
    {
      z := new ZipWriter();
      entries, packed, incomplete, names := 0, 0, false, {};
    }

    /** `add`: an entry is counted before it is looked at, and one past a budget ends the walk. */
    method Add(v: Visit, buffer: nat) returns (err: Option<ArchiveError>)
      requires Valid() && buffer > 0 && !z.failed
      modifies this, z
      ensures Valid() && z.failed == (err == Some(WriteFailed))
      ensures err == Stops(old(entries), old(packed), v)
      ensures z.members == if err.None? then old(z.members) + Placed(v) else old(z.members)
      ensures err.None? ==> incomplete == (old(incomplete) || !Whole(v)) && entries == old(entries) + 1
    {
      if entries >= MAX_ENTRIES {
        incomplete := true;
        return Some(Bounded);
      }
      entries := entries + 1;
      var e := v.entry;
      if !e.readable {
        incomplete := true;
        return None;
      }
      if e.isDir {
        err := z.AddDir(e.relPath, v.broken);
        if err.None? {
          Remember(e.relPath, old(z.members), z.members[|z.members| - 1]);
        }
        return;
      }
      if packed >= MAX_BYTES || e.size > MAX_BYTES - packed {
        incomplete := true;
        return Some(Bounded);
      }
      if v.source.None? {
        incomplete := true;
        return None;
      }
      var stream := new Stream(v.source.value);
      var reader := new Reader(stream, e.size);
      FlaggedExactlyWhen(v.source.value, e.size);
      err := z.AddFile(e.relPath, reader, buffer, v.broken);
      if err.Some? {
        return;
      }
      Remember(e.relPath, old(z.members), z.members[|z.members| - 1]);
      packed := packed + reader.read;
      if reader.incomplete {
        incomplete := true;
      }
    }

    method Remember(rel: Text, ghost before: seq<Member>, ghost added: Member)
      requires z.members == before + [added] && added.relPath == rel
      requires names == Paths(before) && |names| < entries && AllWritten(before) && Written(added)
      modifies `names
      ensures names == Paths(z.members) && |names| <= entries && AllWritten(z.members)
      ensures Total(z.members) == Total(before) + |added.data|
    {
      names := names + {rel};
      TotalSnoc(before, added);
      PathsSnoc(before, added);
    }

    /** `addMarker`: the first name of the series that no written path has. */
    method AddMarker(explanation: bytes, broken: bool) returns (err: Option<ArchiveError>)
      requires Valid()
      modifies z
      ensures err == if incomplete && (old(z.failed) || broken) then Some(WriteFailed) else None
      ensures if incomplete && err.None?
              then exists k :: IsMarker(k, names) && z.members == old(z.members) + [Marker(k, explanation)]
              else z.members == old(z.members)
    {
      if !incomplete {
        return None;
      }
      var name, k := FindMarker();
      MarkerIsClean(k);
      err := z.AddBytes(name, explanation, broken);
      if err.None? {
        assert IsMarker(k, names) && z.members == old(z.members) + [Marker(k, explanation)];
      }
    }

    /** The walk's visits, until one is refused. */
    method AddAll(walk: seq<Visit>, buffer: nat) returns (done: nat, err: Option<ArchiveError>)
      requires Valid() && z.members == [] && !incomplete && entries == 0 && !z.failed && buffer > 0
      modifies this, z
      ensures Valid() && done <= |walk| && z.failed == (err == Some(WriteFailed))
      ensures z.members == PlacedAll(walk[..done])
      ensures GotThrough(walk, done)
      ensures err == if done < |walk| then StopsAt(walk, done) else None
      ensures done < |walk| ==> err.Some?
      ensures err.None? ==> incomplete == AnyOmitted(walk[..done])
    {
      done, err := 0, None;
      while done < |walk|
        invariant done <= |walk| && Valid() && err.None? && entries == done && !z.failed
        invariant z.members == PlacedAll(walk[..done]) && incomplete == AnyOmitted(walk[..done])
        invariant GotThrough(walk, done)
      {
        err := Add(walk[done], buffer);
        if err.Some? {
          return;
        }
        GotNext(walk, done);
        PlacedNext(walk, done);
        OmittedNext(walk, done);
        done := done + 1;
      }
    }

    /** The suffix search: every name it rejects is another of the finitely many written. */
    method FindMarker() returns (name: Text, ghost k: nat)
      ensures IsMarker(k, names) && name == MarkerName(k) && k <= |names| + 1
    {
      name := MARKER_NAME;
      var suffix := 2;
      ghost var left := names;
      while name in names
        invariant suffix >= 2 && name == MarkerName(suffix - 1)
        invariant left == names - Tried(suffix - 1) && |left| + suffix - 2 == |names|
        invariant forall i :: 1 <= i < suffix - 1 ==> MarkerName(i) in names
        decreases |left|
      {
        NeverTried(suffix - 1);
        TriedNext(suffix - 1);
        left := left - {name};
        name := MarkerName(suffix);
        suffix := suffix + 1;
      }
      k := suffix - 1;
    }
  }

  lemma TriedNext(k: nat)
    requires k >= 1
    ensures Tried(k + 1) == Tried(k) + {MarkerName(k)}
  {
  }

  /** A member's name is its path, cleaned, with a slash when it is a directory. */
  ghost predicate Written(m: Member) {
    CleanZipName(m.relPath).Some?
        && (m.name == CleanZipName(m.relPath).value || m.name == CleanZipName(m.relPath).value + "/")
  }

  ghost predicate AllWritten(ms: seq<Member>) {
    forall m :: m in ms ==> Written(m)
  }

  // ---- The marker.

  /** The k-th name of the series. */
  function MarkerName(k: nat): Text
    requires k >= 1
  {
    if k == 1 then MARKER_NAME else "__stowcloud_incomplete__" + Decimal(k) + ".txt"
  }

  ghost function Tried(k: nat): set<Text>
    requires k >= 1
  {
    set i | 1 <= i < k :: MarkerName(i)
  }

  /** `k` is the first number of the series whose name no path has. */
  ghost predicate IsMarker(k: nat, names: set<Text>) {
    k >= 1 && MarkerName(k) !in names && forall i :: 1 <= i < k ==> MarkerName(i) in names
  }

  function Marker(k: nat, explanation: bytes): Member
    requires k >= 1
  {
    Member(MarkerName(k), explanation, MarkerName(k))
  }

  lemma MarkerNamesDiffer(j: nat, k: nat)
    requires 1 <= j < k
    ensures MarkerName(j) != MarkerName(k)
  {
    var stem: Text := "__stowcloud_incomplete__";
    var dot: Text := ".txt";
    assert MARKER_NAME == stem + [] + dot;
    DecimalReadsBack(k);
    if MarkerName(j) == MarkerName(k) {
      var mid: Text := if j == 1 then [] else Decimal(j);
      MiddleIs(stem, mid, Decimal(k), dot);
      if j > 1 {
        DecimalInjective(j, k);
      }
    }
  }

  lemma MiddleIs(a: Text, b: Text, c: Text, d: Text)
    requires a + b + d == a + c + d
    ensures b == c
  {
    assert |b| == |c|;
    assert (a + b + d)[|a|..|a| + |b|] == b && (a + c + d)[|a|..|a| + |c|] == c;
  }

  lemma NeverTried(k: nat)
    requires k >= 1
    ensures MarkerName(k) !in Tried(k)
  {
    forall i | 1 <= i < k ensures MarkerName(i) != MarkerName(k) {
      MarkerNamesDiffer(i, k);
    }
  }

  lemma {:induction false} DecimalIsShort(n: nat)
    ensures |Decimal(n)| <= 1 + n / 10
  {
    if n >= 10 {
      DecimalIsShort(n / 10);
    }
  }

  lemma OneSegment(s: Text)
    requires '/' !in s
    ensures Split(s, '/') == [s]
  {
    if s != [] {
      OneSegment(s[1..]);
    }
  }

  /** However many names are taken, the marker's is one the writer accepts as it stands. */
  lemma MarkerIsClean(k: nat)
    requires 1 <= k <= MAX_ENTRIES + 1
    ensures CleanZipName(MarkerName(k)) == Some(MarkerName(k))
  {
    var name := MarkerName(k);
    NoSlashInMarker(k);
    DecimalIsShort(k);
    OneSegment(name);
    assert name[|name| - 1] == 't';
    assert TrimSlashes(name) == name;
  }

  predicate IsPlain(s: Text) {
    forall i :: 0 <= i < |s| ==> s[i] != '/' && s[i] != '\\' && s[i] != 0 as char
  }

  lemma NoSlashInMarker(k: nat)
    requires k >= 1
    ensures IsPlain(MarkerName(k))
    ensures |MarkerName(k)| > 2 && MarkerName(k)[|MarkerName(k)| - 1] == 't'
  {
    var stem: Text, dot: Text := "__stowcloud_incomplete__", ".txt";
    assert IsPlain(stem) && IsPlain(dot);
    if k == 1 {
      assert MARKER_NAME == stem + dot;
    } else {
      DecimalReadsBack(k);
      assert IsPlain(Decimal(k));
      assert MarkerName(k) == stem + Decimal(k) + dot;
    }
  }

  /** The marker's name is no member's, unless a path ends in a slash, which no walk's does. */
  lemma MarkerClashesWithNothing(ms: seq<Member>, k: nat)
    requires AllWritten(ms) && IsMarker(k, Paths(ms))
    ensures forall m :: m in ms && m.name == MarkerName(k) ==> m.relPath != [] && m.relPath[|m.relPath| - 1] == '/'
  {
    NoSlashInMarker(k);
    forall m | m in ms && m.name == MarkerName(k) ensures m.relPath != [] && m.relPath[|m.relPath| - 1] == '/' {
      var clean := CleanZipName(m.relPath).value;
      assert (clean + "/")[|clean|] == '/';
      assert m.name == clean;
      assert m.relPath in Paths(ms);
      assert TrimSlashes(m.relPath) != m.relPath;
    }
  }

  // ---- The whole archive.

  /** An entry of the walk is left out or cut short. */
  ghost predicate AnyOmitted(walk: seq<Visit>) {
    exists k :: 0 <= k < |walk| && !Whole(walk[k])
  }

  function PlacedAll(walk: seq<Visit>): seq<Member> {
    if walk == [] then [] else PlacedAll(walk[..|walk| - 1]) + Placed(walk[|walk| - 1])
  }

  /** Why the walk ends at its k-th visit, after all before it were placed. */
  function StopsAt(walk: seq<Visit>, k: nat): Option<ArchiveError>
    requires k < |walk|
  {
    Stops(k, Total(PlacedAll(walk[..k])), walk[k])
  }

  /** Nothing ended the walk before its n-th visit. */
  ghost predicate GotThrough(walk: seq<Visit>, n: nat)
    requires n <= |walk|
  {
    forall k :: 0 <= k < n ==> StopsAt(walk, k).None?
  }

  /** Something asked for is not in the archive as it was. */
  ghost predicate Incomplete(walk: seq<Visit>, done: nat, walkFails: bool)
    requires done <= |walk|
  {
    walkFails || done < |walk| || AnyOmitted(walk[..done])
  }

  /**
   `BuildArchive`: the entries the walk got through, each as it must be, then the marker exactly when
   the walk failed or an entry was left out or cut. Neither budget is passed. The marker is missing
   from an incomplete archive only when the connection broke.
   */
  method BuildArchive(walk: seq<Visit>, walkFails: bool, explanation: bytes, buffer: nat, markerBroken: bool)
    returns (members: seq<Member>, done: nat, err: Option<ArchiveError>)
    requires buffer > 0
    ensures done <= |walk| && GotThrough(walk, done)
    ensures done < |walk| ==> StopsAt(walk, done).Some?
    ensures var placed := PlacedAll(walk[..done]);
            var lost := (done < |walk| && StopsAt(walk, done) == Some(WriteFailed)) || markerBroken;
            && |placed| <= MAX_ENTRIES && Total(placed) <= MAX_BYTES
            && (if Incomplete(walk, done, walkFails) && !lost
                then exists k :: IsMarker(k, Paths(placed)) && members == placed + [Marker(k, explanation)]
                else members == placed)
            && err == if done < |walk| then StopsAt(walk, done)
                      else if walkFails then Some(WalkFailed)
                      else if AnyOmitted(walk) && markerBroken then Some(WriteFailed) else None
  {
    var b := new Builder();
    done, err := b.AddAll(walk, buffer);
    assert walk[..|walk|] == walk;
    if err.None? && walkFails {
      err := Some(WalkFailed);
    }
    if err.Some? {
      b.incomplete := true;
    }
    var markerErr := b.AddMarker(explanation, markerBroken);
    members := b.z.members;
    if err.None? {
      err := markerErr;
    }
  }

  lemma PlacedNext(walk: seq<Visit>, n: nat)
    requires n < |walk|
    ensures PlacedAll(walk[..n + 1]) == PlacedAll(walk[..n]) + Placed(walk[n])
  {
    assert walk[..n + 1][..n] == walk[..n];
  }

  lemma GotNext(walk: seq<Visit>, n: nat)
    requires n < |walk| && GotThrough(walk, n) && StopsAt(walk, n).None?
    ensures GotThrough(walk, n + 1)
  {
  }

  lemma OmittedNext(walk: seq<Visit>, n: nat)
    requires n < |walk|
    ensures AnyOmitted(walk[..n + 1]) <==> AnyOmitted(walk[..n]) || !Whole(walk[n])
  {
    assert walk[..n + 1] == walk[..n] + [walk[n]];
    OmittedSnoc(walk[..n], walk[n]);
  }

  lemma OmittedSnoc(walk: seq<Visit>, next: Visit)
    ensures AnyOmitted(walk + [next]) <==> AnyOmitted(walk) || !Whole(next)
  {
    var more := walk + [next];
    assert more[|walk|] == next;
    if k :| 0 <= k < |walk| && !Whole(walk[k]) {
      assert more[k] == walk[k];
    }
    if k :| 0 <= k < |more| && !Whole(more[k]) {
      assert k < |walk| ==> more[k] == walk[k];
    }
  }
}
