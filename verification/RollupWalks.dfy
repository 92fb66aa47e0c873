/**
 Rollup walks interleaved with changes of the tree, markings and generation bumps (files/aggregate.go).

 A walk reads the share's generation once, then directory after directory, and stores a row for each
 directory it finishes. Anything may happen between two of its steps, and a change's marking is a step
 of its own after the change.
 */
module RollupWalks {
  import opened Octets
  import opened Ordering
  import opened Aggregates

  /**
   A directory being walked: its path, the id it had when it was met, and once its entries are read
   the names still to visit, in order. `missed` records that something this frame has read was
   changed since, or was out of date when read; no code reads it.
   */
  datatype Frame = Frame(path: Path, id: Id, rest: Option<seq<Name>>, sums: Sums, missed: bool)

  /** The innermost directory comes first. */
  datatype Walk = Walk(gen: nat, stack: seq<Frame>)

  /** `owed` are the ids of changed directories whose marking has not landed; no code reads it. */
  datatype State = State(tree: Node, cache: Cache, owed: set<Id>, walks: map<nat, Walk>)

  datatype Action =
    | Begin(w: nat)
    | Open(w: nat, path: Path)
    | Hit(w: nat)
    | Read(w: nat)
    | Visit(w: nat, statFails: bool)
    | Finish(w: nat, stored: bool)
    | Abandon(w: nat)
    | Mint(id: Id)
    | Change(to: Node, touched: set<Id>)
    | Mark(marked: set<Id>)
    | Invalidate

  const NOTHING := Sums("", 0, 0)

  function Fresh(path: Path, id: Id): Frame {
    Frame(path, id, None, NOTHING, false)
  }

  predicate Walking(s: State, w: nat) {
    w in s.walks && s.walks[w].stack != []
  }

  function Top(s: State, w: nat): Frame
    requires Walking(s, w)
  {
    s.walks[w].stack[0]
  }

  /** Each frame below the top waits for the entry the frame above it walks. */
  ghost predicate Linked(stack: seq<Frame>) {
    forall i :: 0 <= i < |stack| - 1 ==> Waits(stack[i + 1], stack[i].path)
  }

  predicate Waits(f: Frame, path: Path) {
    f.rest.Some? && f.rest.value != [] && path == f.path + [f.rest.value[0]]
  }

  /** The finished frame's rollup. */
  function Total(hash: string -> string, f: Frame): Aggregate {
    Aggregate(hash(f.sums.input), f.sums.size, f.sums.count)
  }

  /** One entry visited. */
  function Took(f: Frame, agg: Aggregate, missed: bool): Frame
    requires f.rest.Some? && f.rest.value != []
  {
    f.(rest := Some(f.rest.value[1..]),
       sums := Add(f.sums, f.rest.value[0], agg.etag, agg.rsize, agg.rcount),
       missed := f.missed || missed)
  }

  function Skipped(f: Frame, missed: bool): Frame
    requires f.rest.Some? && f.rest.value != []
  {
    f.(rest := Some(f.rest.value[1..]), missed := f.missed || missed)
  }

  /** The innermost directory is done: its rollup goes to the directory above it, or is the answer. */
  function Returned(stack: seq<Frame>, agg: Aggregate, missed: bool): seq<Frame>
    requires stack != [] && (|stack| > 1 ==> Waits(stack[1], stack[0].path))
  {
    if |stack| == 1 then [] else [Took(stack[1], agg, missed)] + stack[2..]
  }

  /** Entries of `d` other than those still to visit. */
  function Visited(d: Node, rest: seq<Name>): set<Name>
    requires d.Dir?
  {
    set n | n in d.kids && n !in rest
  }

  /** What the frame has read of its directory is as it was. */
  ghost predicate Undisturbed(t: Node, t': Node, f: Frame) {
    && IsDir(t, f.path) && IsDir(t', f.path)
    && var d, d' := Resolve(t, f.path).value, Resolve(t', f.path).value;
       && d.id == d'.id
       && (f.rest.Some? ==>
             && Visited(d, f.rest.value) == Visited(d', f.rest.value)
             && forall n :: n in Visited(d, f.rest.value) ==> d.kids[n] == d'.kids[n])
  }

  ghost function Noted(f: Frame, t: Node, t': Node): Frame {
    if Undisturbed(t, t', f) then f else f.(missed := true)
  }

  ghost function NotedAll(k: Walk, t: Node, t': Node): Walk {
    k.(stack := seq(|k.stack|, i requires 0 <= i < |k.stack| => Noted(k.stack[i], t, t')))
  }

  ghost predicate Enabled(s: State, a: Action) {
    match a
    case Begin(w) => w !in s.walks
    case Open(w, p) => w in s.walks && s.walks[w].stack == [] && IsDir(s.tree, p)
    case Hit(w) =>
      && Walking(s, w) && Top(s, w).rest.None? && DirEtag(s.cache, Top(s, w).id).Some?
      && (|s.walks[w].stack| > 1 ==> Waits(s.walks[w].stack[1], Top(s, w).path))
    case Read(w) => Walking(s, w) && Top(s, w).rest.None? && IsDir(s.tree, Top(s, w).path)
    case Visit(w, _) => Walking(s, w) && Top(s, w).rest.Some? && Top(s, w).rest.value != []
    case Finish(w, _) =>
      && Walking(s, w) && Top(s, w).rest == Some([])
      && (|s.walks[w].stack| > 1 ==> Waits(s.walks[w].stack[1], Top(s, w).path))
    case Abandon(w) => w in s.walks
    case Mint(id) => id in Ids(s.tree)
    case Change(to, touched) =>
      to.Dir? && to.id == ROOT_ID && UniqueIds(to) && Touches(s.tree, to, touched, s.cache)
    case Mark(marked) => marked <= Minted(s.cache)
    case Invalidate => true
  }

  /** The ids a row may be kept under. */
  function Minted(c: Cache): set<Id> {
    c.known + {ROOT_ID}
  }

  function Learn(c: Cache, id: Id): Cache {
    c.(known := c.known + {id})
  }

  ghost function Visiting(s: State, w: nat, statFails: bool): State
    requires Enabled(s, Visit(w, statFails))
  {
    var k, f := s.walks[w], Top(s, w);
    var path := f.path + [f.rest.value[0]];
    var found := Resolve(s.tree, path);
    if found.None? || statFails then
      s.(walks := s.walks[w := k.(stack := [Skipped(f, found.Some?)] + k.stack[1..])])
    else
      match found.value
      case File(etag, size) =>
        s.(walks := s.walks[w := k.(stack := [Took(f, Aggregate(etag, size, 1), false)] + k.stack[1..])])
      case Dir(id, _) =>
        s.(cache := Learn(s.cache, id), walks := s.walks[w := k.(stack := [Fresh(path, id)] + k.stack)])
  }

  ghost function Next(hash: string -> string, s: State, a: Action): State
    requires Enabled(s, a)
  {
    match a
    case Begin(w) => s.(walks := s.walks[w := Walk(s.cache.gen, [])])
    case Open(w, p) =>
      var id := Resolve(s.tree, p).value.id;
      s.(cache := Learn(s.cache, id), walks := s.walks[w := Walk(s.walks[w].gen, [Fresh(p, id)])])
    case Hit(w) =>
      var k, f := s.walks[w], Top(s, w);
      var agg := DirEtag(s.cache, f.id).value;
      s.(walks := s.walks[w := k.(stack := Returned(k.stack, agg, f.missed || f.id in s.owed))])
    case Read(w) =>
      var k, f := s.walks[w], Top(s, w);
      var names := SortedNames(Resolve(s.tree, f.path).value.kids.Keys);
      s.(walks := s.walks[w := k.(stack := [f.(rest := Some(names), sums := NOTHING)] + k.stack[1..])])
    case Visit(w, statFails) => Visiting(s, w, statFails)
    case Finish(w, stored) =>
      var k, f := s.walks[w], Top(s, w);
      var agg := Total(hash, f);
      s.(cache := if stored then Put(s.cache, f.id, agg, k.gen) else s.cache,
         walks := s.walks[w := k.(stack := Returned(k.stack, agg, f.missed))])
    case Abandon(w) => s.(walks := s.walks - {w})
    case Mint(id) => s.(cache := Learn(s.cache, id))
    case Change(to, touched) =>
      State(to, s.cache, s.owed + touched * Minted(s.cache), map w | w in s.walks :: NotedAll(s.walks[w], s.tree, to))
    case Mark(marked) => s.(cache := Dirty(s.cache, marked), owed := s.owed - marked)
    case Invalidate => s.(cache := Bump(s.cache), owed := {})
  }

  /**
   The hypothesis of the honesty promise: a walk stores a row for a directory of which it missed a
   change only when the generation has moved on since the walk began, or a marking of that
   directory is still to land.
   */
  ghost predicate Disciplined(s: State, a: Action)
    requires Enabled(s, a)
  {
    a.Finish? && a.stored && Top(s, a.w).missed ==> s.walks[a.w].gen < s.cache.gen || Top(s, a.w).id in s.owed
  }

  ghost predicate Possible(hash: string -> string, s: State, run: seq<Action>)
    decreases |run|
  {
    run == [] || (Enabled(s, run[0]) && Possible(hash, Next(hash, s, run[0]), run[1..]))
  }

  ghost function After(hash: string -> string, s: State, run: seq<Action>): State
    requires Possible(hash, s, run)
    decreases |run|
  {
    if run == [] then s else After(hash, Next(hash, s, run[0]), run[1..])
  }

  ghost predicate Legal(hash: string -> string, s: State, run: seq<Action>)
    decreases |run|
  {
    run == [] || (Enabled(s, run[0]) && Disciplined(s, run[0]) && Legal(hash, Next(hash, s, run[0]), run[1..]))
  }

  function Boot(tree: Node): State {
    State(tree, Cache(map[], {}, 0), {}, map[])
  }

  // ---- What every disciplined run keeps.

  /** The names visited, in the order the hash is defined over. */
  ghost function VisitedNames(d: Node, rest: seq<Name>): (names: seq<Name>)
    requires d.Dir?
    ensures forall n :: n in names ==> n in d.kids && n !in rest
  {
    var names := SortedNames(Visited(d, rest));
    assert forall n :: n in names ==> n in Elements(names);
    names
  }

  /** The sums cover exactly the entries visited, and what is still to visit comes after them. */
  ghost predicate Summed(hash: string -> string, d: Node, rest: seq<Name>, sums: Sums)
    requires d.Dir?
  {
    && SortedBy(StrLess, rest)
    && (forall n, r :: n in Visited(d, rest) && r in rest ==> StrLess(n, r))
    && sums == Fold(hash, d, VisitedNames(d, rest))
  }

  /** What the frame has read is true of the tree. */
  ghost predicate Faithful(hash: string -> string, t: Node, f: Frame) {
    && IsDir(t, f.path) && Resolve(t, f.path).value.id == f.id
    && (f.rest.Some? ==> Summed(hash, Resolve(t, f.path).value, f.rest.value, f.sums))
  }

  ghost predicate FrameOk(hash: string -> string, t: Node, c: Cache, f: Frame) {
    f.id in Minted(c) && (!f.missed ==> Faithful(hash, t, f))
  }

  ghost predicate WalkOk(hash: string -> string, t: Node, c: Cache, k: Walk) {
    && k.gen <= c.gen && Linked(k.stack)
    && forall i :: 0 <= i < |k.stack| ==> FrameOk(hash, t, c, k.stack[i])
  }

  ghost predicate RowsOk(c: Cache) {
    forall id :: id in c.rows ==> c.rows[id].gen <= c.gen && id in Minted(c)
  }

  /** A row that would answer is the rollup, or its marking is still to land. */
  ghost predicate Covered(hash: string -> string, t: Node, c: Cache, owed: set<Id>) {
    forall d :: Within(d, t) && d.Dir? && DirEtag(c, d.id).Some? && d.id !in owed ==>
      DirEtag(c, d.id).value == Rollup(hash, d)
  }

  ghost predicate TreeOk(t: Node) {
    t.Dir? && t.id == ROOT_ID && UniqueIds(t)
  }

  ghost predicate Inv(hash: string -> string, s: State) {
    && TreeOk(s.tree) && RowsOk(s.cache) && Covered(hash, s.tree, s.cache, s.owed)
    && forall w :: w in s.walks ==> WalkOk(hash, s.tree, s.cache, s.walks[w])
  }

  lemma SortedNamesSorted(keys: set<Name>)
    ensures SortedBy(StrLess, SortedNames(keys))
  {
    SortedEnumerationExists(keys);
  }

  lemma SortedNamesAre(names: seq<Name>, keys: set<Name>)
    requires SortedBy(StrLess, names) && Elements(names) == keys
    ensures names == SortedNames(keys)
  {
    SortedNamesSorted(keys);
    StrLessOrders(keys);
    SortedUnique(StrLess, names, SortedNames(keys));
  }

  /** A name after all others goes to the end. */
  lemma SortedNamesExtend(keys: set<Name>, n: Name)
    requires n !in keys && forall x :: x in keys ==> StrLess(x, n)
    ensures SortedNames(keys + {n}) == SortedNames(keys) + [n]
  {
    var names := SortedNames(keys) + [n];
    SortedNamesSorted(keys);
    forall i, j | 0 <= i < j < |names| ensures StrLess(names[i], names[j]) {
      assert names[i] in Elements(SortedNames(keys));
    }
    assert forall x :: x in names <==> x in Elements(SortedNames(keys)) || x == n;
    SortedNamesAre(names, keys + {n});
  }

  /** The fold looks at nothing but the entries it is over. */
  lemma {:induction false} FoldDepends(hash: string -> string, d: Node, d': Node, names: seq<Name>)
    requires d.Dir? && d'.Dir?
    requires forall n :: n in names ==> n in d.kids && n in d'.kids && d.kids[n] == d'.kids[n]
    ensures Fold(hash, d, names) == Fold(hash, d', names)
    decreases |names|
  {
    if names != [] {
      var front, n := names[..|names| - 1], names[|names| - 1];
      assert n in names;
      FoldDepends(hash, d, d', front);
      FoldLast(hash, d, front, n);
      FoldLast(hash, d', front, n);
      assert front + [n] == names;
    }
  }

  lemma ReadIsSummed(hash: string -> string, d: Node)
    requires d.Dir?
    ensures Summed(hash, d, SortedNames(d.kids.Keys), NOTHING)
  {
    var names := SortedNames(d.kids.Keys);
    SortedNamesSorted(d.kids.Keys);
    assert Elements(names) == d.kids.Keys;
    assert forall n :: n in d.kids ==> n in Elements(names);
    assert Visited(d, names) == {};
    SortedNamesAre([], {});
  }

  lemma VisitOne(d: Node, rest: seq<Name>)
    requires d.Dir? && rest != [] && SortedBy(StrLess, rest)
    ensures rest[0] !in rest[1..]
    ensures Visited(d, rest[1..]) == Visited(d, rest) + if rest[0] in d.kids then {rest[0]} else {}
  {
    if rest[0] in rest[1..] {
      var j :| 0 <= j < |rest[1..]| && rest[1..][j] == rest[0];
      assert StrLess(rest[0], rest[j + 1]);
      StrLessIrreflexive(rest[0]);
    }
    assert forall n :: n in rest <==> n == rest[0] || n in rest[1..];
  }

  lemma SkipIsSummed(hash: string -> string, d: Node, rest: seq<Name>, sums: Sums)
    requires d.Dir? && rest != [] && Summed(hash, d, rest, sums) && rest[0] !in d.kids
    ensures Summed(hash, d, rest[1..], sums)
  {
    VisitOne(d, rest);
    assert Visited(d, rest[1..]) == Visited(d, rest);
  }

  lemma TakeIsSummed(hash: string -> string, d: Node, rest: seq<Name>, sums: Sums)
    requires d.Dir? && rest != [] && Summed(hash, d, rest, sums) && rest[0] in d.kids
    ensures var e := Entry(hash, d.kids[rest[0]]).0;
            Summed(hash, d, rest[1..], Add(sums, rest[0], e.etag, e.rsize, e.rcount))
  {
    var n := rest[0];
    VisitOne(d, rest);
    SortedNamesExtend(Visited(d, rest), n);
    var names := VisitedNames(d, rest);
    FoldLast(hash, d, names, n);
    forall x, r | x in Visited(d, rest[1..]) && r in rest[1..] ensures StrLess(x, r) {
      assert r in rest;
      if x == n {
        var j :| 0 <= j < |rest[1..]| && rest[1..][j] == r;
        assert StrLess(rest[0], rest[j + 1]);
      }
    }
  }

  lemma DoneIsRollup(hash: string -> string, d: Node, sums: Sums)
    requires d.Dir? && Summed(hash, d, [], sums)
    ensures Rollup(hash, d) == Aggregate(hash(sums.input), sums.size, sums.count)
  {
    assert Visited(d, []) == d.kids.Keys;
  }

  lemma UndisturbedIsSummed(hash: string -> string, d: Node, d': Node, rest: seq<Name>, sums: Sums)
    requires d.Dir? && d'.Dir? && Summed(hash, d, rest, sums)
    requires Visited(d, rest) == Visited(d', rest) && forall n :: n in Visited(d, rest) ==> d.kids[n] == d'.kids[n]
    ensures Summed(hash, d', rest, sums)
  {
    var names := VisitedNames(d, rest);
    assert forall n :: n in names ==> n in Visited(d, rest);
    FoldDepends(hash, d, d', names);
  }

  lemma {:induction false} ResolveOneMore(t: Node, p: Path, n: Name)
    ensures Resolve(t, p + [n]) ==
              if IsDir(t, p) && n in Resolve(t, p).value.kids then Some(Resolve(t, p).value.kids[n]) else None
    decreases |p|
  {
    if p == [] {
      assert p + [n] == [n];
    } else {
      assert (p + [n])[1..] == p[1..] + [n];
      if t.Dir? && p[0] in t.kids {
        ResolveOneMore(t.kids[p[0]], p[1..], n);
      }
    }
  }

  /** The row of a directory that lies where its frame says is about that directory. */
  lemma RowIsOfFrame(hash: string -> string, t: Node, c: Cache, owed: set<Id>, f: Frame)
    requires TreeOk(t) && Covered(hash, t, c, owed) && Faithful(hash, t, f) && DirEtag(c, f.id).Some? && f.id !in owed
    ensures DirEtag(c, f.id).value == Rollup(hash, Resolve(t, f.path).value)
  {
    ResolvedWithin(t, f.path);
  }

  lemma TookIsFaithful(hash: string -> string, t: Node, f: Frame, path: Path, agg: Aggregate)
    requires Waits(f, path) && Faithful(hash, t, f)
    requires Resolve(t, path).Some? && agg == Entry(hash, Resolve(t, path).value).0
    ensures Faithful(hash, t, Took(f, agg, false))
  {
    ResolveOneMore(t, f.path, f.rest.value[0]);
    TakeIsSummed(hash, Resolve(t, f.path).value, f.rest.value, f.sums);
  }

  lemma ReturnKeeps(hash: string -> string, t: Node, c: Cache, k: Walk, agg: Aggregate, missed: bool)
    requires WalkOk(hash, t, c, k) && k.stack != []
    requires !missed ==> IsDir(t, k.stack[0].path) && agg == Rollup(hash, Resolve(t, k.stack[0].path).value)
    ensures |k.stack| > 1 ==> Waits(k.stack[1], k.stack[0].path)
    ensures WalkOk(hash, t, c, k.(stack := Returned(k.stack, agg, missed)))
  {
    if |k.stack| > 1 {
      assert Waits(k.stack[0 + 1], k.stack[0].path);
      assert FrameOk(hash, t, c, k.stack[1]);
      if !missed && !k.stack[1].missed {
        TookIsFaithful(hash, t, k.stack[1], k.stack[0].path, agg);
      }
      ReplaceTop(hash, t, c, k, Took(k.stack[1], agg, missed));
    }
  }

  /** The top frame gone and the one below it moved on. */
  lemma ReplaceTop(hash: string -> string, t: Node, c: Cache, k: Walk, f: Frame)
    requires WalkOk(hash, t, c, k) && |k.stack| > 1 && FrameOk(hash, t, c, f) && f.path == k.stack[1].path
    ensures WalkOk(hash, t, c, k.(stack := [f] + k.stack[2..]))
  {
    var stack := [f] + k.stack[2..];
    forall i | 0 <= i < |stack| - 1 ensures Waits(stack[i + 1], stack[i].path) {
      assert Waits(k.stack[i + 1 + 1], k.stack[i + 1].path);
    }
    forall i | 0 <= i < |stack| ensures FrameOk(hash, t, c, stack[i]) {
      if i > 0 {
        assert stack[i] == k.stack[i + 1];
      }
    }
  }

  lemma SwapTop(hash: string -> string, t: Node, c: Cache, k: Walk, f: Frame)
    requires WalkOk(hash, t, c, k) && k.stack != [] && FrameOk(hash, t, c, f) && f.path == k.stack[0].path
    ensures WalkOk(hash, t, c, k.(stack := [f] + k.stack[1..]))
  {
    var stack := [f] + k.stack[1..];
    forall i | 0 <= i < |stack| - 1 ensures Waits(stack[i + 1], stack[i].path) {
      assert Waits(k.stack[i + 1], k.stack[i].path);
    }
  }

  lemma PushTop(hash: string -> string, t: Node, c: Cache, k: Walk, f: Frame)
    requires WalkOk(hash, t, c, k) && k.stack != [] && FrameOk(hash, t, c, f) && Waits(k.stack[0], f.path)
    ensures WalkOk(hash, t, c, k.(stack := [f] + k.stack))
  {
    var stack := [f] + k.stack;
    forall i | 0 <= i < |stack| - 1 ensures Waits(stack[i + 1], stack[i].path) {
      if i > 0 {
        assert Waits(k.stack[i - 1 + 1], k.stack[i - 1].path);
      }
    }
    forall i | 0 <= i < |stack| ensures FrameOk(hash, t, c, stack[i]) {
      if i > 0 {
        assert stack[i] == k.stack[i - 1];
      }
    }
  }

  lemma CacheGrows(hash: string -> string, t: Node, c: Cache, c': Cache, k: Walk)
    requires WalkOk(hash, t, c, k) && Minted(c) <= Minted(c') && c.gen <= c'.gen
    ensures WalkOk(hash, t, c', k)
  {
  }

  /** Steps of one walk: the tree stays, the cache grows, the other walks do not notice. */
  lemma OneWalkKeeps(hash: string -> string, s: State, w: nat, c': Cache, k': Walk)
    requires Inv(hash, s) && Minted(s.cache) <= Minted(c') && s.cache.gen <= c'.gen
    requires RowsOk(c') && Covered(hash, s.tree, c', s.owed) && WalkOk(hash, s.tree, c', k')
    ensures Inv(hash, s.(cache := c', walks := s.walks[w := k']))
  {
    forall v | v in s.walks ensures WalkOk(hash, s.tree, c', s.walks[v]) {
      CacheGrows(hash, s.tree, s.cache, c', s.walks[v]);
    }
  }

  lemma LearnKeeps(hash: string -> string, s: State, id: Id)
    requires Inv(hash, s)
    ensures var c' := Learn(s.cache, id);
            && Minted(s.cache) <= Minted(c') && id in Minted(c') && c'.gen == s.cache.gen
            && RowsOk(c') && Covered(hash, s.tree, c', s.owed)
  {
    var c' := Learn(s.cache, id);
    assert forall i :: DirEtag(c', i) == DirEtag(s.cache, i);
  }

  lemma OpenKeeps(hash: string -> string, s: State, w: nat, p: Path)
    requires Inv(hash, s) && Enabled(s, Open(w, p))
    ensures Inv(hash, Next(hash, s, Open(w, p)))
  {
    var id := Resolve(s.tree, p).value.id;
    LearnKeeps(hash, s, id);
    OneWalkKeeps(hash, s, w, Learn(s.cache, id), Walk(s.walks[w].gen, [Fresh(p, id)]));
  }

  lemma HitKeeps(hash: string -> string, s: State, w: nat)
    requires Inv(hash, s) && Enabled(s, Hit(w))
    ensures Inv(hash, Next(hash, s, Hit(w)))
  {
    var k, f := s.walks[w], Top(s, w);
    var missed := f.missed || f.id in s.owed;
    if !missed {
      assert FrameOk(hash, s.tree, s.cache, k.stack[0]);
      RowIsOfFrame(hash, s.tree, s.cache, s.owed, f);
    }
    ReturnKeeps(hash, s.tree, s.cache, k, DirEtag(s.cache, f.id).value, missed);
    OneWalkKeeps(hash, s, w, s.cache, k.(stack := Returned(k.stack, DirEtag(s.cache, f.id).value, missed)));
  }

  lemma ReadKeeps(hash: string -> string, s: State, w: nat)
    requires Inv(hash, s) && Enabled(s, Read(w))
    ensures Inv(hash, Next(hash, s, Read(w)))
  {
    var k, f := s.walks[w], Top(s, w);
    var d := Resolve(s.tree, f.path).value;
    var f' := f.(rest := Some(SortedNames(d.kids.Keys)), sums := NOTHING);
    assert FrameOk(hash, s.tree, s.cache, k.stack[0]);
    ReadIsSummed(hash, d);
    SwapTop(hash, s.tree, s.cache, k, f');
    OneWalkKeeps(hash, s, w, s.cache, k.(stack := [f'] + k.stack[1..]));
  }

  lemma VisitKeeps(hash: string -> string, s: State, w: nat, statFails: bool)
    requires Inv(hash, s) && Enabled(s, Visit(w, statFails))
    ensures Inv(hash, Visiting(s, w, statFails))
  {
    var k, f := s.walks[w], Top(s, w);
    var path := f.path + [f.rest.value[0]];
    var found := Resolve(s.tree, path);
    assert FrameOk(hash, s.tree, s.cache, k.stack[0]);
    ResolveOneMore(s.tree, f.path, f.rest.value[0]);
    if found.None? || statFails {
      var f' := Skipped(f, found.Some?);
      if !f'.missed {
        SkipIsSummed(hash, Resolve(s.tree, f.path).value, f.rest.value, f.sums);
      }
      SwapTop(hash, s.tree, s.cache, k, f');
      OneWalkKeeps(hash, s, w, s.cache, k.(stack := [f'] + k.stack[1..]));
    } else if found.value.File? {
      var agg := Aggregate(found.value.etag, found.value.size, 1);
      if !f.missed {
        TookIsFaithful(hash, s.tree, f, path, agg);
      }
      SwapTop(hash, s.tree, s.cache, k, Took(f, agg, false));
      OneWalkKeeps(hash, s, w, s.cache, k.(stack := [Took(f, agg, false)] + k.stack[1..]));
    } else {
      var id := found.value.id;
      LearnKeeps(hash, s, id);
      CacheGrows(hash, s.tree, s.cache, Learn(s.cache, id), k);
      PushTop(hash, s.tree, Learn(s.cache, id), k, Fresh(path, id));
      OneWalkKeeps(hash, s, w, Learn(s.cache, id), k.(stack := [Fresh(path, id)] + k.stack));
    }
  }

  /** Storing a row keeps the cache covered when it is the rollup, will not answer, or is about to be marked. */
  lemma {:induction false} StoreCovers(hash: string -> string, t: Node, c: Cache, owed: set<Id>, f: Frame, gen: nat)
    requires TreeOk(t) && RowsOk(c) && Covered(hash, t, c, owed) && FrameOk(hash, t, c, f) && gen <= c.gen
    requires f.rest == Some([]) && (f.missed ==> gen < c.gen || f.id in owed)
    ensures RowsOk(Put(c, f.id, Total(hash, f), gen)) && Covered(hash, t, Put(c, f.id, Total(hash, f), gen), owed)
  {
    var c' := Put(c, f.id, Total(hash, f), gen);
    forall d | Within(d, t) && d.Dir? && DirEtag(c', d.id).Some? && d.id !in owed
      ensures DirEtag(c', d.id).value == Rollup(hash, d)
    {
      if d.id == f.id {
        DoneIsRollup(hash, Resolve(t, f.path).value, f.sums);
        ResolvedWithin(t, f.path);
        IdNamesOne(d, Resolve(t, f.path).value, t);
      } else {
        assert DirEtag(c', d.id) == DirEtag(c, d.id);
      }
    }
  }

  lemma {:induction false} FinishKeeps(hash: string -> string, s: State, w: nat, stored: bool)
    requires Inv(hash, s) && Enabled(s, Finish(w, stored)) && Disciplined(s, Finish(w, stored))
    ensures Inv(hash, Next(hash, s, Finish(w, stored)))
  {
    var k, f := s.walks[w], Top(s, w);
    var agg := Total(hash, f);
    assert FrameOk(hash, s.tree, s.cache, k.stack[0]);
    if !f.missed {
      DoneIsRollup(hash, Resolve(s.tree, f.path).value, f.sums);
    }
    ReturnKeeps(hash, s.tree, s.cache, k, agg, f.missed);
    var k' := k.(stack := Returned(k.stack, agg, f.missed));
    if stored {
      StoreCovers(hash, s.tree, s.cache, s.owed, f, k.gen);
      CacheGrows(hash, s.tree, s.cache, Put(s.cache, f.id, agg, k.gen), k');
      OneWalkKeeps(hash, s, w, Put(s.cache, f.id, agg, k.gen), k');
    } else {
      OneWalkKeeps(hash, s, w, s.cache, k');
    }
  }

  lemma NotedIsOk(hash: string -> string, t: Node, t': Node, c: Cache, f: Frame)
    requires FrameOk(hash, t, c, f)
    ensures FrameOk(hash, t', c, Noted(f, t, t'))
  {
    if !f.missed && Undisturbed(t, t', f) && f.rest.Some? {
      UndisturbedIsSummed(hash, Resolve(t, f.path).value, Resolve(t', f.path).value, f.rest.value, f.sums);
    }
  }

  lemma {:induction false} NotedAllIsOk(hash: string -> string, t: Node, t': Node, c: Cache, k: Walk)
    requires WalkOk(hash, t, c, k)
    ensures WalkOk(hash, t', c, NotedAll(k, t, t'))
  {
    var k' := NotedAll(k, t, t');
    forall i | 0 <= i < |k'.stack| ensures FrameOk(hash, t', c, k'.stack[i]) {
      NotedIsOk(hash, t, t', c, k.stack[i]);
    }
    forall i | 0 <= i < |k'.stack| - 1 ensures Waits(k'.stack[i + 1], k'.stack[i].path) {
      assert Waits(k.stack[i + 1], k.stack[i].path);
    }
  }

  lemma {:induction false} ChangeKeeps(hash: string -> string, s: State, to: Node, touched: set<Id>)
    requires Inv(hash, s) && Enabled(s, Change(to, touched))
    ensures Inv(hash, Next(hash, s, Change(to, touched)))
  {
    var s' := Next(hash, s, Change(to, touched));
    forall w | w in s'.walks ensures WalkOk(hash, to, s'.cache, s'.walks[w]) {
      NotedAllIsOk(hash, s.tree, to, s.cache, s.walks[w]);
    }
    forall d | Within(d, to) && d.Dir? && DirEtag(s.cache, d.id).Some? && d.id !in s'.owed
      ensures DirEtag(s.cache, d.id).value == Rollup(hash, d)
    {
      assert d.id in Minted(s.cache);
      assert Within(d, s.tree);
    }
  }

  lemma MarkKeeps(hash: string -> string, s: State, marked: set<Id>)
    requires Inv(hash, s) && Enabled(s, Mark(marked))
    ensures Inv(hash, Next(hash, s, Mark(marked)))
  {
    var s' := Next(hash, s, Mark(marked));
    assert forall id :: DirEtag(s'.cache, id) == if id in marked then None else DirEtag(s.cache, id);
    forall w | w in s.walks ensures WalkOk(hash, s.tree, s'.cache, s.walks[w]) {
      CacheGrows(hash, s.tree, s.cache, s'.cache, s.walks[w]);
    }
  }

  lemma InvalidateKeeps(hash: string -> string, s: State)
    requires Inv(hash, s)
    ensures Inv(hash, Next(hash, s, Invalidate))
  {
    var s' := Next(hash, s, Invalidate);
    forall w | w in s.walks ensures WalkOk(hash, s.tree, s'.cache, s.walks[w]) {
      CacheGrows(hash, s.tree, s.cache, s'.cache, s.walks[w]);
    }
  }

  lemma MintKeeps(hash: string -> string, s: State, id: Id)
    requires Inv(hash, s)
    ensures Inv(hash, s.(cache := Learn(s.cache, id)))
  {
    LearnKeeps(hash, s, id);
    forall w | w in s.walks ensures WalkOk(hash, s.tree, Learn(s.cache, id), s.walks[w]) {
      CacheGrows(hash, s.tree, s.cache, Learn(s.cache, id), s.walks[w]);
    }
  }

  lemma {:induction false} StepKeeps(hash: string -> string, s: State, a: Action)
    requires Inv(hash, s) && Enabled(s, a) && Disciplined(s, a)
    ensures Inv(hash, Next(hash, s, a))
  {
    match a
    case Begin(w) => OneWalkKeeps(hash, s, w, s.cache, Walk(s.cache.gen, []));
    case Open(w, p) => OpenKeeps(hash, s, w, p);
    case Hit(w) => HitKeeps(hash, s, w);
    case Read(w) => ReadKeeps(hash, s, w);
    case Visit(w, statFails) => VisitKeeps(hash, s, w, statFails);
    case Finish(w, stored) => FinishKeeps(hash, s, w, stored);
    case Abandon(w) =>
    case Mint(id) => MintKeeps(hash, s, id);
    case Change(to, touched) => ChangeKeeps(hash, s, to, touched);
    case Mark(marked) => MarkKeeps(hash, s, marked);
    case Invalidate => InvalidateKeeps(hash, s);
  }

  lemma {:induction false} RunKeeps(hash: string -> string, s: State, run: seq<Action>)
    requires Inv(hash, s) && Legal(hash, s, run)
    ensures Possible(hash, s, run) && Inv(hash, After(hash, s, run))
    decreases |run|
  {
    if run != [] {
      StepKeeps(hash, s, run[0]);
      RunKeeps(hash, Next(hash, s, run[0]), run[1..]);
    }
  }

  /**
   In every disciplined interleaving of walks, changes, markings and bumps, a row that would answer
   is the rollup of its directory unless that directory's marking is still to land.
   */
  lemma RollupTheorem(hash: string -> string, tree: Node, run: seq<Action>)
    requires TreeOk(tree) && Legal(hash, Boot(tree), run)
    ensures Possible(hash, Boot(tree), run)
    ensures var s := After(hash, Boot(tree), run);
            Covered(hash, s.tree, s.cache, s.owed) && (s.owed == {} ==> Honest(hash, s.tree, s.cache))
  {
    RunKeeps(hash, Boot(tree), run);
  }

  /** A walk that missed nothing answers the rollup the directory has when the walk ends. */
  lemma AnswerIsCurrent(hash: string -> string, s: State, w: nat)
    requires Inv(hash, s) && Walking(s, w) && !Top(s, w).missed
    ensures IsDir(s.tree, Top(s, w).path)
    ensures var f, d := Top(s, w), Resolve(s.tree, Top(s, w).path).value;
            && (f.rest == Some([]) ==> Total(hash, f) == Rollup(hash, d))
            && (f.rest.None? && DirEtag(s.cache, f.id).Some? && f.id !in s.owed ==>
                  DirEtag(s.cache, f.id).value == Rollup(hash, d))
  {
    var f := Top(s, w);
    assert FrameOk(hash, s.tree, s.cache, s.walks[w].stack[0]);
    if f.rest == Some([]) {
      DoneIsRollup(hash, Resolve(s.tree, f.path).value, f.sums);
    } else if f.rest.None? && DirEtag(s.cache, f.id).Some? && f.id !in s.owed {
      RowIsOfFrame(hash, s.tree, s.cache, s.owed, f);
    }
  }

  /** The directory a walk was opened on: that of its outermost frame. */
  function Opened(s: State, w: nat): (Path, Id)
    requires Walking(s, w)
  {
    var outer := s.walks[w].stack[|s.walks[w].stack| - 1];
    (outer.path, outer.id)
  }

  /** Whatever happens, a walk goes on to answer for the directory it was opened on, one frame a step deeper or back. */
  lemma WalkKeepsItsDirectory(hash: string -> string, s: State, a: Action, w: nat)
    requires Enabled(s, a) && Walking(s, w) && w in Next(hash, s, a).walks
    ensures var before, after := |s.walks[w].stack|, |Next(hash, s, a).walks[w].stack|;
            && before - 1 <= after <= before + 1
            && (after == 0 ==> before == 1)
    ensures Walking(Next(hash, s, a), w) ==> Opened(Next(hash, s, a), w) == Opened(s, w)
  {
  }

  // ---- The hypothesis is exact.

  /** When what a frame missed shows in the rollup, storing its row is safe exactly when it is disciplined. */
  lemma StoreSafeExactlyWhen(hash: string -> string, s: State, w: nat, d: Node)
    requires Inv(hash, s) && Enabled(s, Finish(w, true))
    requires Within(d, s.tree) && d.Dir? && d.id == Top(s, w).id
    requires Top(s, w).missed ==> Total(hash, Top(s, w)) != Rollup(hash, d)
    ensures Inv(hash, Next(hash, s, Finish(w, true))) <==> Disciplined(s, Finish(w, true))
  {
    var s' := Next(hash, s, Finish(w, true));
    if Disciplined(s, Finish(w, true)) {
      FinishKeeps(hash, s, w, true);
    } else {
      assert DirEtag(s'.cache, d.id) == Some(Total(hash, Top(s, w)));
      assert !Covered(hash, s'.tree, s'.cache, s'.owed);
    }
  }

  /** Steps that neither change the tree nor belong to walk `w`. */
  predicate Aside(a: Action, w: nat) {
    && !a.Change?
    && ((a.Begin? || a.Open? || a.Hit? || a.Read? || a.Visit? || a.Finish? || a.Abandon?) ==> a.w != w)
  }

  lemma AsideStep(hash: string -> string, s: State, w: nat, a: Action)
    requires w in s.walks && Enabled(s, a) && Aside(a, w)
    ensures var s' := Next(hash, s, a);
            && s'.tree == s.tree && w in s'.walks && s'.walks[w] == s.walks[w]
            && s'.cache.gen == s.cache.gen + if a.Invalidate? then 1 else 0
  {
    match a
    case Visit(v, statFails) =>
      var found := Resolve(s.tree, Top(s, v).path + [Top(s, v).rest.value[0]]);
    case _ =>
  }

  lemma {:induction false} AsideKeeps(hash: string -> string, s: State, w: nat, run: seq<Action>)
    requires Inv(hash, s) && w in s.walks && Legal(hash, s, run) && forall a :: a in run ==> Aside(a, w)
    ensures Possible(hash, s, run)
    ensures var s' := After(hash, s, run);
            && Inv(hash, s') && s'.tree == s.tree && w in s'.walks && s'.walks[w] == s.walks[w]
            && s.cache.gen <= s'.cache.gen && (s.cache.gen < s'.cache.gen <==> Invalidate in run)
    decreases |run|
  {
    if run != [] {
      assert run[0] in run;
      StepKeeps(hash, s, run[0]);
      AsideStep(hash, s, w, run[0]);
      AsideKeeps(hash, Next(hash, s, run[0]), w, run[1..]);
      assert run == [run[0]] + run[1..];
    }
  }

  /** A change that shows is one the finished frame of its directory has missed. */
  lemma {:induction false} ShownIsMissed(hash: string -> string, t: Node, t': Node, f: Frame)
    requires f.rest == Some([]) && Differs(hash, t, t', f.path)
    ensures Noted(f, t, t').missed
  {
    if Undisturbed(t, t', f) {
      var d, d' := Resolve(t, f.path).value, Resolve(t', f.path).value;
      assert Visited(d, []) == d.kids.Keys && Visited(d', []) == d'.kids.Keys;
      var names := SortedNames(d.kids.Keys);
      assert forall n :: n in names ==> n in Elements(names);
      FoldDepends(hash, d, d', names);
    }
  }

  /**
   The race in terms of events: a walk has read all of a directory, a change that shows lands, every
   marking lands, and then the walk stores its row. The cache is honest exactly when a bump came
   since the walk began.
   */
  lemma {:induction false} LateStoreHonestExactlyWhenBumped(
      hash: string -> string, s: State, w: nat, to: Node, touched: set<Id>, between: seq<Action>)
    returns (s2: State)
    requires Inv(hash, s) && Enabled(s, Finish(w, true)) && !Top(s, w).missed
    requires Enabled(s, Change(to, touched)) && Differs(hash, s.tree, to, Top(s, w).path)
    requires Resolve(to, Top(s, w).path).value.id == Top(s, w).id
    requires Legal(hash, Next(hash, s, Change(to, touched)), between) && forall a :: a in between ==> Aside(a, w)
    ensures Possible(hash, Next(hash, s, Change(to, touched)), between)
    ensures s2 == After(hash, Next(hash, s, Change(to, touched)), between) && Enabled(s2, Finish(w, true))
    ensures s2.owed == {} ==>
              var s3 := Next(hash, s2, Finish(w, true));
              Honest(hash, s3.tree, s3.cache) <==> s.walks[w].gen < s.cache.gen || Invalidate in between
  {
    var f := Top(s, w);
    var s1 := Next(hash, s, Change(to, touched));
    AnswerIsCurrent(hash, s, w);
    ChangeKeeps(hash, s, to, touched);
    ShownIsMissed(hash, s.tree, to, f);
    AsideKeeps(hash, s1, w, between);
    s2 := After(hash, s1, between);
    assert WalkOk(hash, s2.tree, s2.cache, s2.walks[w]);
    assert |s2.walks[w].stack| > 1 ==> Waits(s2.walks[w].stack[0 + 1], s2.walks[w].stack[0].path);
    ResolvedWithin(to, f.path);
    StoreSafeExactlyWhen(hash, s2, w, Resolve(to, f.path).value);
    if s2.owed == {} {
      HonestIsCovered(hash, s2, w);
    }
  }

  lemma {:induction false} HonestIsCovered(hash: string -> string, s: State, w: nat)
    requires Inv(hash, s) && Enabled(s, Finish(w, true)) && s.owed == {}
    ensures var s' := Next(hash, s, Finish(w, true)); Honest(hash, s'.tree, s'.cache) <==> Inv(hash, s')
  {
    var k, f := s.walks[w], Top(s, w);
    var s' := Next(hash, s, Finish(w, true));
    assert FrameOk(hash, s.tree, s.cache, k.stack[0]);
    if !f.missed {
      AnswerIsCurrent(hash, s, w);
    }
    ReturnKeeps(hash, s.tree, s.cache, k, Total(hash, f), f.missed);
    if Honest(hash, s'.tree, s'.cache) {
      OneWalkKeeps(hash, s, w, s.cache, s'.walks[w]);
      forall v | v in s'.walks ensures WalkOk(hash, s'.tree, s'.cache, s'.walks[v]) {
        CacheGrows(hash, s.tree, s.cache, s'.cache, s'.walks[v]);
      }
    }
  }

  /** A change of one directory is paid by its marking exactly when no known directory of the chain was unreadable. */
  lemma {:induction false} MarkingPaysExactlyWhen(hash: string -> string, s: State, p: Path, kids: map<Name, Node>,
          unread: set<Id>)
    requires Inv(hash, s) && IsDir(s.tree, p) && Plausible(s.tree, kids, s.cache) && UniqueIds(Edit(s.tree, p, kids))
    ensures var t' := Edit(s.tree, p, kids);
            && Enabled(s, Change(t', Chain(t', p)))
            && var s1 := Next(hash, s, Change(t', Chain(t', p)));
               var marked := Marks(t', p, s.cache.known - unread);
               && Enabled(s1, Mark(marked))
               && (Next(hash, s1, Mark(marked)).owed <= s.owed <==>
                     Chain(s.tree, p) * s.cache.known * unread <= s.owed + {ROOT_ID})
  {
    var t' := Edit(s.tree, p, kids);
    EditIsTouch(s.tree, p, kids, s.cache);
    EditChain(s.tree, p, kids);
    var s1 := Next(hash, s, Change(t', Chain(t', p)));
    var s2 := Next(hash, s1, Mark(Marks(t', p, s.cache.known - unread)));
    forall id ensures id in s2.owed && id !in s.owed <==>
        id in Chain(s.tree, p) * s.cache.known * unread && id !in s.owed + {ROOT_ID} {}
  }

  // ---- And it is needed: two races the code allows.

  ghost predicate Gets(hash: string -> string, s: State, t: State) {
    exists run :: Possible(hash, s, run) && After(hash, s, run) == t
  }

  lemma GetsHere(hash: string -> string, s: State)
    ensures Gets(hash, s, s)
  {
    assert Possible(hash, s, []) && After(hash, s, []) == s;
  }


  lemma GetsThen(hash: string -> string, s: State, t: State, a: Action, u: State)
    requires Gets(hash, s, t) && Enabled(t, a) && Next(hash, t, a) == u
    ensures Gets(hash, s, u)
  {
    var run :| Possible(hash, s, run) && After(hash, s, run) == t;
    Extends(hash, s, run, a);
    assert After(hash, s, run + [a]) == u;
  }

  lemma {:induction false} Extends(hash: string -> string, s: State, run: seq<Action>, a: Action)
    requires Possible(hash, s, run) && Enabled(After(hash, s, run), a)
    ensures Possible(hash, s, run + [a]) && After(hash, s, run + [a]) == Next(hash, After(hash, s, run), a)
    decreases |run|
  {
    if run == [] {
      assert run + [a] == [a];
    } else {
      Extends(hash, Next(hash, s, run[0]), run[1..], a);
      assert (run + [a])[1..] == run[1..] + [a];
    }
  }
}
