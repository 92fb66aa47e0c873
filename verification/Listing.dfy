/** The order of a directory listing and its pages (files/list.go). */
module Listing {
  import opened Octets
  import opened Ordering
  import opened Text
  import opened Decimals

  /** `vfs.Kind`, in its declared order. */
  type Kind = nat

  const KIND_DIR: Kind := 2

  /** One directory entry and its sort keys; a key not asked for, or not read, is zero. */
  datatype Row = Row(name: string, kind: Kind, size: nat, mtime: int) {
    predicate IsFile() {
      kind != KIND_DIR
    }
  }

  datatype SortKey = SortName | SortKind | SortSize | SortMtime

  datatype Options = Options(key: SortKey, desc: bool, limit: int)

  const PAGE_SIZE := 200

  const MAX_PAGE_SIZE := 2000

  /** `lessByKey`: less, greater, or not told apart. */
  function LessByKey(a: Row, b: Row, key: SortKey): Option<bool> {
    match key
    case SortKind => if a.kind != b.kind then Some(a.kind < b.kind) else None
    case SortSize => if a.size != b.size then Some(a.size < b.size) else None
    case SortMtime => if a.mtime != b.mtime then Some(a.mtime < b.mtime) else None
    case SortName => if a.name != b.name then Some(StrLess(a.name, b.name)) else None
  }

  /** The comparison `sortListing` sorts by. */
  function Before(opt: Options): (Row, Row) -> bool {
    (a: Row, b: Row) =>
      if a.IsFile() != b.IsFile() then !a.IsFile()
      else match LessByKey(a, b, opt.key)
           case Some(less) => if opt.desc then !less else less
           case None => StrLess(a.name, b.name)
  }

  ghost predicate DistinctNames(rows: seq<Row>) {
    forall i, j :: 0 <= i < j < |rows| ==> rows[i].name != rows[j].name
  }

  ghost predicate NamesTellApart(dom: set<Row>) {
    forall a, b :: a in dom && b in dom && a.name == b.name ==> a == b
  }

  lemma BeforeIsTotal(opt: Options, a: Row, b: Row)
    requires a.name != b.name
    ensures Before(opt)(a, b) != Before(opt)(b, a)
  {
    StrLessTotal(a.name, b.name);
    if StrLess(a.name, b.name) && StrLess(b.name, a.name) {
      StrLessTransitive(a.name, b.name, a.name);
      StrLessIrreflexive(a.name);
    }
  }

  lemma BeforeIsTransitive(opt: Options, a: Row, b: Row, c: Row)
    requires Before(opt)(a, b) && Before(opt)(b, c)
    requires a.name != b.name && b.name != c.name && a.name != c.name
    ensures Before(opt)(a, c)
  {
    BeforeIsTotal(opt, a, c);
    StrLessTotal(a.name, b.name);
    StrLessTotal(b.name, c.name);
    if StrLess(a.name, b.name) && StrLess(b.name, c.name) {
      StrLessTransitive(a.name, b.name, c.name);
    }
    if StrLess(c.name, b.name) && StrLess(b.name, a.name) {
      StrLessTransitive(c.name, b.name, a.name);
    }
    BeforeIsTotal(SameName(opt), a, b);
    BeforeIsTotal(SameName(opt), b, c);
    BeforeIsTotal(SameName(opt), a, c);
  }

  function SameName(opt: Options): Options {
    opt.(key := SortName)
  }

  /** Under every key and direction, rows with distinct names are strictly and totally ordered. */
  lemma BeforeOrders(opt: Options, dom: set<Row>)
    requires NamesTellApart(dom)
    ensures StrictTotalOn(Before(opt), dom)
  {
    var less := Before(opt);
    forall a | a in dom ensures !less(a, a) {
      StrLessIrreflexive(a.name);
    }
    forall a, b | a in dom && b in dom && a != b ensures less(a, b) || less(b, a) {
      BeforeIsTotal(opt, a, b);
    }
    forall a, b, c | a in dom && b in dom && c in dom && less(a, b) && less(b, c) ensures less(a, c) {
      if a == b || b == c {
      } else if a == c {
        BeforeIsTotal(opt, a, b);
      } else {
        BeforeIsTransitive(opt, a, b, c);
      }
    }
  }

  function Sorted(rows: seq<Row>, opt: Options): (sorted: seq<Row>)
    ensures |sorted| == |rows|
  {
    Sort(Before(opt), rows)
  }

  lemma NamesAreDistinct(rows: seq<Row>)
    requires DistinctNames(rows)
    ensures Distinct(rows) && NamesTellApart(Elements(rows))
  {
    forall a, b | a in Elements(rows) && b in Elements(rows) && a.name == b.name ensures a == b {
      var i :| 0 <= i < |rows| && rows[i] == a;
      var j :| 0 <= j < |rows| && rows[j] == b;
      assert i == j;
    }
  }

  /** The listing is its directory's rows, each once, in one order whatever order the read gave. */
  lemma ListingIsCanonical(rows: seq<Row>, other: seq<Row>, opt: Options)
    requires DistinctNames(rows) && DistinctNames(other) && Elements(rows) == Elements(other)
    ensures Sorted(rows, opt) == Sorted(other, opt)
    ensures multiset(Sorted(rows, opt)) == multiset(rows) && SortedBy(Before(opt), Sorted(rows, opt))
  {
    NamesAreDistinct(rows);
    NamesAreDistinct(other);
    BeforeOrders(opt, Elements(rows));
    SortIgnoresOrder(Before(opt), rows, other);
    SortPermutes(Before(opt), rows);
    SortSorts(Before(opt), rows);
  }

  /** How many of the rows are directories. */
  function CountDirs(rows: seq<Row>): nat {
    if rows == [] then 0 else CountDirs(rows[..|rows| - 1]) + if rows[|rows| - 1].IsFile() then 0 else 1
  }

  lemma {:induction false} DirsLead(rows: seq<Row>)
    requires forall i, j :: 0 <= i < j < |rows| && rows[i].IsFile() ==> rows[j].IsFile()
    ensures CountDirs(rows) <= |rows|
    ensures forall k :: 0 <= k < |rows| ==> (rows[k].IsFile() <==> CountDirs(rows) <= k)
  {
    if rows != [] {
      var n := |rows| - 1;
      DirsLead(rows[..n]);
      assert forall k :: 0 <= k < n ==> rows[..n][k] == rows[k];
      if !rows[n].IsFile() {
        assert forall k :: 0 <= k < n ==> !rows[k].IsFile();
        assert n > 0 ==> !rows[..n][n - 1].IsFile();
      }
    }
  }

  /** Under every key and direction, the directories are exactly the first of the rows. */
  lemma DirectoriesComeFirst(rows: seq<Row>, opt: Options, k: nat)
    requires DistinctNames(rows) && k < |rows|
    ensures Sorted(rows, opt)[k].IsFile() <==> CountDirs(Sorted(rows, opt)) <= k
  {
    ListingIsCanonical(rows, rows, opt);
    var s := Sorted(rows, opt);
    forall i, j | 0 <= i < j < |s| && s[i].IsFile() ensures s[j].IsFile() {
      assert Before(opt)(s[i], s[j]);
    }
    DirsLead(s);
  }

  /** Descending reverses what the key decides inside a group, and nothing else. */
  lemma DescendingReversesTheKey(a: Row, b: Row, opt: Options)
    requires a.name != b.name
    ensures var up, down := Before(opt.(desc := false)), Before(opt.(desc := true));
            down(a, b) == if a.IsFile() == b.IsFile() && LessByKey(a, b, opt.key).Some? then up(b, a) else up(a, b)
  {
    BeforeIsTotal(opt.(desc := false), a, b);
  }

  /**
   What a listing promises of a row and any row after it: directories before files; within a group the
   key ascending, or descending when asked; rows of one key by ascending name.
   */
  predicate Precedes(a: Row, b: Row, opt: Options) {
    if a.kind == KIND_DIR || b.kind == KIND_DIR then
      a.kind == KIND_DIR && (b.kind == KIND_DIR ==> InGroup(a, b, opt))
    else
      InGroup(a, b, opt)
  }

  predicate InGroup(a: Row, b: Row, opt: Options) {
    match opt.key
    case SortName => if opt.desc then StrLess(b.name, a.name) else StrLess(a.name, b.name)
    case SortKind => (a.kind == b.kind && StrLess(a.name, b.name)) || Ranks(a.kind, b.kind, opt.desc)
    case SortSize => (a.size == b.size && StrLess(a.name, b.name)) || Ranks(a.size, b.size, opt.desc)
    case SortMtime => (a.mtime == b.mtime && StrLess(a.name, b.name)) || Ranks(a.mtime, b.mtime, opt.desc)
  }

  predicate Ranks(x: int, y: int, desc: bool) {
    if desc then x > y else x < y
  }

  lemma BeforeMeans(a: Row, b: Row, opt: Options)
    requires a.name != b.name
    ensures Before(opt)(a, b) <==> Precedes(a, b, opt)
  {
    StrLessTotal(a.name, b.name);
    if StrLess(a.name, b.name) && StrLess(b.name, a.name) {
      StrLessTransitive(a.name, b.name, a.name);
      StrLessIrreflexive(a.name);
    }
  }

  ghost predicate InOrder(rows: seq<Row>, opt: Options) {
    forall i, j :: 0 <= i < j < |rows| ==> Precedes(rows[i], rows[j], opt)
  }

  lemma SortedStaysDistinct(rows: seq<Row>, opt: Options)
    requires DistinctNames(rows)
    ensures DistinctNames(Sorted(rows, opt))
  {
    var s := Sorted(rows, opt);
    SortPermutes(Before(opt), rows);
    NamesAreDistinct(rows);
    SameElements(s, rows);
    BeforeOrders(opt, Elements(rows));
    SortSorts(Before(opt), rows);
    forall i, j | 0 <= i < j < |s| ensures s[i].name != s[j].name {
      assert Before(opt)(s[i], s[j]) && s[i] in Elements(s) && s[j] in Elements(s);
    }
  }

  /** Sorting by size sorts by size, and so on, in each direction. */
  lemma SortedInOrder(rows: seq<Row>, opt: Options)
    requires DistinctNames(rows)
    ensures InOrder(Sorted(rows, opt), opt)
  {
    var s := Sorted(rows, opt);
    ListingIsCanonical(rows, rows, opt);
    SortedStaysDistinct(rows, opt);
    forall i, j | 0 <= i < j < |s| ensures Precedes(s[i], s[j], opt) {
      BeforeMeans(s[i], s[j], opt);
    }
  }

  // ---- Pages.

  datatype Page = Page(entries: seq<Row>, dirs: nat, total: nat, next: Text)

  datatype ListError = NotFound | Denied

  /** `cursorOffset`. */
  function CursorOffset(cursor: Text): Option<nat> {
    if cursor == [] then Some(0)
    else match ParseInt(cursor)
         case None => None
         case Some(n) => if n < 0 then None else Some(n)
  }

  /** A cursor is an offset in decimal, none at all being the first page; anything else is no cursor. */
  lemma CursorExactlyWhen(cursor: Text, offset: nat)
    ensures CursorOffset(cursor) == Some(offset) <==>
              if cursor == [] then offset == 0
              else offset < 0x8000_0000_0000_0000 && exists digits :: Reads(cursor, digits, offset)
  {
    ParseIntExactlyWhen(cursor, offset);
  }

  function Window(limit: int): nat {
    if limit > 0 then if limit < MAX_PAGE_SIZE then limit else MAX_PAGE_SIZE else PAGE_SIZE
  }

  /** The rows whose names still join, in order. */
  function Joining(rows: seq<Row>, joins: Row -> bool): seq<Row> {
    if rows == [] then []
    else Joining(rows[..|rows| - 1], joins) + if joins(rows[|rows| - 1]) then [rows[|rows| - 1]] else []
  }

  lemma {:induction false} JoiningIsPart(rows: seq<Row>, joins: Row -> bool, opt: Options)
    requires InOrder(rows, opt)
    ensures InOrder(Joining(rows, joins), opt) && forall r :: r in Joining(rows, joins) ==> r in rows
  {
    if rows != [] {
      var front, last := rows[..|rows| - 1], rows[|rows| - 1];
      JoiningIsPart(front, joins, opt);
      var part, whole := Joining(front, joins), Joining(rows, joins);
      forall i, j | 0 <= i < j < |whole| ensures Precedes(whole[i], whole[j], opt) {
        if j == |part| {
          assert whole[i] in part;
          var k :| 0 <= k < |front| && front[k] == whole[i];
          assert Precedes(rows[k], rows[|rows| - 1], opt);
        }
      }
    }
  }

  lemma CutInOrder(dir: seq<Row>, joins: Row -> bool, cursor: Text, opt: Options)
    ensures var r := Cut(Sorted(dir, opt), joins, cursor, opt.limit);
            r.Ok? && DistinctNames(dir) ==> InOrder(r.value.entries, opt)
  {
    var s, r := Sorted(dir, opt), Cut(Sorted(dir, opt), joins, cursor, opt.limit);
    if r.Ok? && DistinctNames(dir) {
      SortedInOrder(dir, opt);
      var offset := CursorOffset(cursor).value;
      var end := if offset + Window(opt.limit) < |s| then offset + Window(opt.limit) else |s|;
      assert InOrder(s[offset..end], opt);
      JoiningIsPart(s[offset..end], joins, opt);
    }
  }

  /** The page a cursor cuts from the sorted rows. */
  function Cut(sorted: seq<Row>, joins: Row -> bool, cursor: Text, limit: int): Result<Page, ListError> {
    match CursorOffset(cursor)
    case None => Err(NotFound)
    case Some(offset) =>
      if offset > |sorted| then Err(NotFound)
      else
        var end := if offset + Window(limit) < |sorted| then offset + Window(limit) else |sorted|;
        Ok(Page(Joining(sorted[offset..end], joins), CountDirs(sorted), |sorted|,
                if end < |sorted| then Decimal(end) else []))
  }

  /** `ListSorted`: the whole directory is ordered before the page is cut. */
  method ListSorted(readable: bool, isDir: bool, dir: seq<Row>, joins: Row -> bool, cursor: Text, opt: Options)
    returns (r: Result<Page, ListError>)
    ensures r == if !readable then Err(Denied) else if !isDir then Err(NotFound)
        else Cut(Sorted(dir, opt), joins, cursor, opt.limit)
    ensures r.Ok? && DistinctNames(dir) ==> InOrder(r.value.entries, opt)
  {
    CutInOrder(dir, joins, cursor, opt);
    if !readable {
      return Err(Denied);
    }
    if !isDir {
      return Err(NotFound);
    }
    var offset := CursorOffset(cursor);
    if offset.None? {
      return Err(NotFound);
    }
    var rows := Sorted(dir, opt);
    var dirs := DirsOf(rows);
    if offset.value > |rows| {
      return Err(NotFound);
    }
    var size := PAGE_SIZE;
    if opt.limit > 0 {
      size := if opt.limit < MAX_PAGE_SIZE then opt.limit else MAX_PAGE_SIZE;
    }
    var end := if offset.value + size < |rows| then offset.value + size else |rows|;
    var entries := EntriesOf(rows[offset.value..end], joins);
    return Ok(Page(entries, dirs, |rows|, if end < |rows| then Decimal(end) else []));
  }

  method DirsOf(rows: seq<Row>) returns (dirs: nat)
    ensures dirs == CountDirs(rows)
  {
    dirs := 0;
    for i := 0 to |rows|
      invariant dirs == CountDirs(rows[..i])
    {
      assert rows[..i + 1][..i] == rows[..i];
      if !rows[i].IsFile() {
        dirs := dirs + 1;
      }
    }
    assert rows[..|rows|] == rows;
  }

  method EntriesOf(window: seq<Row>, joins: Row -> bool) returns (entries: seq<Row>)
    ensures entries == Joining(window, joins)
  {
    entries := [];
    for i := 0 to |window|
      invariant entries == Joining(window[..i], joins)
    {
      assert window[..i + 1][..i] == window[..i];
      if joins(window[i]) {
        entries := entries + [window[i]];
      }
    }
    assert window[..|window|] == window;
  }

  /** Following `Next` from a cursor over an unchanged directory, with any limit on each request. */
  function Follow(sorted: seq<Row>, joins: Row -> bool, cursor: Text, limits: nat -> int, request: nat): seq<Row>
    requires |sorted| <= MAX_INT64
    decreases |sorted| - match CursorOffset(cursor) case Some(n) => n case None => |sorted|
  {
    match Cut(sorted, joins, cursor, limits(request))
    case Err(_) => []
    case Ok(page) =>
      if page.next == [] then page.entries
      else
        CursorReadsBack(sorted, joins, cursor, limits(request));
        page.entries + Follow(sorted, joins, page.next, limits, request + 1)
  }

  /** A page with a next cursor ends strictly past where it began, and the cursor says where. */
  lemma CursorReadsBack(sorted: seq<Row>, joins: Row -> bool, cursor: Text, limit: int)
    requires |sorted| <= MAX_INT64
    ensures var r := Cut(sorted, joins, cursor, limit);
            r.Ok? && r.value.next != [] ==>
              && CursorOffset(cursor).Some? && CursorOffset(r.value.next).Some?
              && CursorOffset(cursor).value < CursorOffset(r.value.next).value < |sorted|
              && CursorOffset(r.value.next).value == CursorOffset(cursor).value + Window(limit)
              && r.value.entries == Joining(sorted[CursorOffset(cursor).value..CursorOffset(r.value.next).value], joins)
  {
    var r := Cut(sorted, joins, cursor, limit);
    if r.Ok? && r.value.next != [] {
      DecimalParses(CursorOffset(cursor).value + Window(limit));
    }
  }

  lemma {:induction false} JoiningAdds(a: seq<Row>, b: seq<Row>, joins: Row -> bool)
    ensures Joining(a + b, joins) == Joining(a, joins) + Joining(b, joins)
  {
    if b == [] {
      assert a + b == a;
    } else {
      JoiningAdds(a, b[..|b| - 1], joins);
      assert (a + b)[..|a + b| - 1] == a + b[..|b| - 1];
    }
  }

  /** From any offset on, the pages add up to exactly the rest of the listing, in order. */
  lemma {:induction false} PagesCoverTheRest(sorted: seq<Row>, joins: Row -> bool, cursor: Text, limits: nat -> int,
          request: nat)
    requires |sorted| <= MAX_INT64 && CursorOffset(cursor).Some? && CursorOffset(cursor).value <= |sorted|
    ensures Follow(sorted, joins, cursor, limits, request) == Joining(sorted[CursorOffset(cursor).value..], joins)
    decreases |sorted| - CursorOffset(cursor).value
  {
    var offset := CursorOffset(cursor).value;
    var page := Cut(sorted, joins, cursor, limits(request)).value;
    CursorReadsBack(sorted, joins, cursor, limits(request));
    if page.next != [] {
      var end := CursorOffset(page.next).value;
      PagesCoverTheRest(sorted, joins, page.next, limits, request + 1);
      RestSplits(sorted, joins, offset, end);
    } else {
      assert sorted[offset..|sorted|] == sorted[offset..];
    }
  }

  lemma RestSplits(sorted: seq<Row>, joins: Row -> bool, offset: nat, end: nat)
    requires offset <= end <= |sorted|
    ensures Joining(sorted[offset..], joins) == Joining(sorted[offset..end], joins) + Joining(sorted[end..], joins)
  {
    JoiningAdds(sorted[offset..end], sorted[end..], joins);
    assert sorted[offset..end] + sorted[end..] == sorted[offset..];
  }

  /** Following from the empty cursor yields every row that joins, once, in the listing's order, and ends. */
  lemma {:induction false} PagesCoverTheListing(rows: seq<Row>, joins: Row -> bool, opt: Options, limits: nat -> int)
    requires DistinctNames(rows) && |rows| <= MAX_INT64
    ensures Follow(Sorted(rows, opt), joins, [], limits, 0) == Joining(Sorted(rows, opt), joins)
    ensures (forall r :: r in rows ==> joins(r)) ==>
        multiset(Follow(Sorted(rows, opt), joins, [], limits, 0)) == multiset(rows)
  {
    var sorted := Sorted(rows, opt);
    PagesCoverTheRest(sorted, joins, [], limits, 0);
    assert sorted[0..] == sorted;
    ListingIsCanonical(rows, rows, opt);
    if forall r :: r in rows ==> joins(r) {
      forall k | 0 <= k < |sorted| ensures joins(sorted[k]) {
        assert sorted[k] in multiset(sorted);
      }
      JoiningAll(sorted, joins);
    }
  }

  lemma {:induction false} JoiningAll(rows: seq<Row>, joins: Row -> bool)
    requires forall k :: 0 <= k < |rows| ==> joins(rows[k])
    ensures Joining(rows, joins) == rows
  {
    if rows != [] {
      JoiningAll(rows[..|rows| - 1], joins);
      assert rows == rows[..|rows| - 1] + [rows[|rows| - 1]];
    }
  }
}
