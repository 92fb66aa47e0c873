/** The recursive directory rollup and its cache (files/aggregate.go, db/cache/diretag.go). */
module Aggregates {
  import opened Octets
  import opened Ordering

  type Id = nat

  type Name = string

  type uint64 = x: int | 0 <= x < 0x1_0000_0000_0000_0000

  const WORD := 0x1_0000_0000_0000_0000

  /** Unsigned 64-bit addition wraps. */
  function Plus(a: uint64, b: uint64): uint64 {
    if a + b < WORD then a + b else a + b - WORD
  }

  /** The 64-bit value of an unbounded count. */
  function Wrap(n: nat): uint64 {
    if n < WORD then n else Wrap(n - WORD)
  }

  lemma {:induction false} WrapIsModulo(n: nat)
    ensures Wrap(n) == n % WORD
  {
    if n >= WORD {
      WrapIsModulo(n - WORD);
    }
  }

  lemma {:induction false} WrapAdds(a: nat, b: nat)
    ensures Plus(Wrap(a), Wrap(b)) == Wrap(a + b)
    decreases a + b
  {
    if a >= WORD {
      WrapAdds(a - WORD, b);
    } else if b >= WORD {
      WrapAdds(a, b - WORD);
    }
  }

  /** A file with its change token and size, or a directory with its stable id. */
  datatype Node =
    | File(etag: string, size: uint64)
    | Dir(id: Id, kids: map<Name, Node>)

  /** The share root's sentinel id. */
  const ROOT_ID: Id := 0

  datatype Aggregate = Aggregate(etag: string, rsize: uint64, rcount: uint64)

  ghost predicate Enumerates(names: seq<Name>, keys: set<Name>) {
    Distinct(names) && Elements(names) == keys
  }

  lemma EnumerationExists(keys: set<Name>)
    ensures exists names :: Enumerates(names, keys)
  {
    var names: seq<Name> := [];
    var todo := keys;
    while todo != {}
      invariant Enumerates(names, keys - todo) && todo <= keys
      decreases |todo|
    {
      var n :| n in todo;
      assert n !in Elements(names);
      assert Elements(names + [n]) == Elements(names) + {n};
      todo := todo - {n};
      names := names + [n];
    }
    assert keys - todo == keys;
  }

  lemma SortEnumerates(listing: seq<Name>, keys: set<Name>)
    requires Enumerates(listing, keys)
    ensures Enumerates(Sort(StrLess, listing), keys) && SortedBy(StrLess, Sort(StrLess, listing))
  {
    StrLessOrders(keys);
    SortPermutes(StrLess, listing);
    SameElements(Sort(StrLess, listing), listing);
    SortSorts(StrLess, listing);
    var names := Sort(StrLess, listing);
    forall i, j | 0 <= i < j < |names| ensures names[i] != names[j] {
      assert StrLess(names[i], names[j]) && names[i] in Elements(names);
    }
  }

  lemma SortedEnumerationExists(keys: set<Name>)
    ensures exists names :: Enumerates(names, keys) && SortedBy(StrLess, names)
  {
    EnumerationExists(keys);
    var any :| Enumerates(any, keys);
    SortEnumerates(any, keys);
  }

  /** The directory's names in the order the hash is defined over. */
  ghost function SortedNames(keys: set<Name>): (names: seq<Name>)
    ensures Enumerates(names, keys)
  {
    SortedEnumerationExists(keys);
    var names :| Enumerates(names, keys) && SortedBy(StrLess, names);
    names
  }

  /** Whatever order the directory is read in, sorting it gives the same names. */
  lemma ReadOrderIsIrrelevant(listing: seq<Name>, keys: set<Name>)
    requires Enumerates(listing, keys)
    ensures Sort(StrLess, listing) == SortedNames(keys)
  {
    SortEnumerates(listing, keys);
    StrLessOrders(keys);
    assert SortedBy(StrLess, SortedNames(keys));
    SortedUnique(StrLess, Sort(StrLess, listing), SortedNames(keys));
  }

  /** What the walk over a directory has hashed and added up so far. */
  datatype Sums = Sums(input: string, size: uint64, count: uint64)

  function Add(s: Sums, name: Name, etag: string, size: uint64, count: uint64): Sums {
    Sums(s.input + name + etag, Plus(s.size, size), Plus(s.count, count))
  }

  /** The rollup from scratch, with no cache; `hash` stands for the truncated BLAKE3 digest. */
  ghost function Rollup(hash: string -> string, d: Node): Aggregate
    requires d.Dir?
    decreases d, 1, 0
  {
    var s := Fold(hash, d, SortedNames(d.kids.Keys));
    Aggregate(hash(s.input), s.size, s.count)
  }

  ghost function Fold(hash: string -> string, d: Node, names: seq<Name>): Sums
    requires d.Dir? && forall n :: n in names ==> n in d.kids
    decreases d, 0, |names|
  {
    if names == [] then
      Sums("", 0, 0)
    else
      var before, n := Fold(hash, d, names[..|names| - 1]), names[|names| - 1];
      match d.kids[n]
      case File(etag, size) => Add(before, n, etag, size, 1)
      case Dir(_, _) =>
        var agg := Rollup(hash, d.kids[n]);
        Add(before, n, agg.etag, agg.rsize, agg.rcount)
  }

  /** Bytes and files beneath a directory, unbounded. */
  ghost function Totals(d: Node, names: seq<Name>): (nat, nat)
    requires d.Dir? && forall n :: n in names ==> n in d.kids
    decreases d, |names|
  {
    if names == [] then
      (0, 0)
    else
      var before, n := Totals(d, names[..|names| - 1]), names[|names| - 1];
      match d.kids[n]
      case File(_, size) => (before.0 + size, before.1 + 1)
      case Dir(_, kids) =>
        var below := Totals(d.kids[n], SortedNames(kids.Keys));
        (before.0 + below.0, before.1 + below.1)
  }

  ghost function TotalSize(d: Node): nat
    requires d.Dir?
  {
    Totals(d, SortedNames(d.kids.Keys)).0
  }

  ghost function TotalFiles(d: Node): nat
    requires d.Dir?
  {
    Totals(d, SortedNames(d.kids.Keys)).1
  }

  predicate Counts(s: Sums, t: (nat, nat)) {
    s.size == Wrap(t.0) && s.count == Wrap(t.1)
  }

  lemma AddCounts(s: Sums, t: (nat, nat), name: Name, etag: string, size: uint64, count: uint64, more: (nat, nat))
    requires Counts(s, t) && size == Wrap(more.0) && count == Wrap(more.1)
    ensures Counts(Add(s, name, etag, size, count), (t.0 + more.0, t.1 + more.1))
  {
    WrapAdds(t.0, more.0);
    WrapAdds(t.1, more.1);
  }

  /** What one entry adds: its token, wrapped size and count, and its unbounded totals. */
  ghost function Entry(hash: string -> string, k: Node): (Aggregate, (nat, nat)) {
    match k
    case File(etag, size) => (Aggregate(etag, size, 1), (size, 1))
    case Dir(_, kids) => (Rollup(hash, k), Totals(k, SortedNames(kids.Keys)))
  }

  lemma FoldLast(hash: string -> string, d: Node, front: seq<Name>, n: Name)
    requires d.Dir? && n in d.kids && forall x :: x in front ==> x in d.kids
    ensures var e := Entry(hash, d.kids[n]).0;
            Fold(hash, d, front + [n]) == Add(Fold(hash, d, front), n, e.etag, e.rsize, e.rcount)
  {
    assert (front + [n])[..|front|] == front;
  }

  lemma {:induction false} TotalsLast(hash: string -> string, d: Node, front: seq<Name>, n: Name)
    requires d.Dir? && n in d.kids && forall x :: x in front ==> x in d.kids
    ensures var e, t := Entry(hash, d.kids[n]).1, Totals(d, front);
            Totals(d, front + [n]) == (t.0 + e.0, t.1 + e.1)
  {
    var names := front + [n];
    assert names[..|names| - 1] == front && names[|names| - 1] == n;
  }

  lemma {:induction false} FoldTotals(hash: string -> string, d: Node, names: seq<Name>)
    requires d.Dir? && forall n :: n in names ==> n in d.kids
    ensures Counts(Fold(hash, d, names), Totals(d, names))
    decreases d, 1, |names|
  {
    if names != [] {
      var front, n := names[..|names| - 1], names[|names| - 1];
      FoldTotals(hash, d, front);
      EntryTotals(hash, d.kids[n]);
      FoldLast(hash, d, front, n);
      TotalsLast(hash, d, front, n);
      assert front + [n] == names;
      var e := Entry(hash, d.kids[n]);
      AddCounts(Fold(hash, d, front), Totals(d, front), n, e.0.etag, e.0.rsize, e.0.rcount, e.1);
    }
  }

  lemma EntryTotals(hash: string -> string, k: Node)
    ensures var e := Entry(hash, k); e.0.rsize == Wrap(e.1.0) && e.0.rcount == Wrap(e.1.1)
    decreases k, 2, 0
  {
    if k.Dir? {
      FoldTotals(hash, k, SortedNames(k.kids.Keys));
    }
  }

  /** The rollup carries the size sum and file count of everything beneath it, modulo the counter width. */
  lemma RollupCounts(hash: string -> string, d: Node)
    requires d.Dir?
    ensures Rollup(hash, d).rsize == Wrap(TotalSize(d))
    ensures Rollup(hash, d).rcount == Wrap(TotalFiles(d))
  {
    FoldTotals(hash, d, SortedNames(d.kids.Keys));
  }

  // ---- The tree and its paths.

  ghost predicate Within(e: Node, t: Node)
    decreases t
  {
    e == t || (t.Dir? && exists n :: n in t.kids && Within(e, t.kids[n]))
  }

  ghost function Ids(t: Node): set<Id>
    decreases t
  {
    match t
    case File(_, _) => {}
    case Dir(id, kids) => {id} + set n, i | n in kids && i in Ids(kids[n]) :: i
  }

  /** No two directories of the tree share a stable id. */
  ghost predicate UniqueIds(t: Node)
    decreases t
  {
    t.Dir? ==>
      && (forall n :: n in t.kids ==> UniqueIds(t.kids[n]) && t.id !in Ids(t.kids[n]))
      && (forall m, n :: m in t.kids && n in t.kids && m != n ==> Ids(t.kids[m]) !! Ids(t.kids[n]))
  }

  lemma {:induction false} WithinHasId(e: Node, t: Node)
    requires e.Dir? && Within(e, t)
    ensures e.id in Ids(t)
    decreases t
  {
    if e != t {
      var n :| n in t.kids && Within(e, t.kids[n]);
      WithinHasId(e, t.kids[n]);
    }
  }

  lemma {:induction false} IdNamesOne(d: Node, e: Node, t: Node)
    requires UniqueIds(t) && d.Dir? && e.Dir? && Within(d, t) && Within(e, t) && d.id == e.id
    ensures d == e
    decreases t
  {
    if d != t && e != t {
      var m :| m in t.kids && Within(d, t.kids[m]);
      var n :| n in t.kids && Within(e, t.kids[n]);
      WithinHasId(d, t.kids[m]);
      WithinHasId(e, t.kids[n]);
      assert m == n;
      IdNamesOne(d, e, t.kids[m]);
    } else if d != t {
      var m :| m in t.kids && Within(d, t.kids[m]);
      WithinHasId(d, t.kids[m]);
    } else if e != t {
      var n :| n in t.kids && Within(e, t.kids[n]);
      WithinHasId(e, t.kids[n]);
    }
  }

  lemma {:induction false} WithinTransitive(a: Node, b: Node, c: Node)
    requires Within(a, b) && Within(b, c)
    ensures Within(a, c)
    decreases c
  {
    if b != c {
      var n :| n in c.kids && Within(b, c.kids[n]);
      WithinTransitive(a, b, c.kids[n]);
    }
  }

  type Path = seq<Name>

  function Resolve(t: Node, p: Path): Option<Node>
    decreases |p|
  {
    if p == [] then Some(t)
    else if t.Dir? && p[0] in t.kids then Resolve(t.kids[p[0]], p[1..])
    else None
  }

  ghost predicate IsDir(t: Node, p: Path) {
    Resolve(t, p).Some? && Resolve(t, p).value.Dir?
  }

  lemma {:induction false} ResolvedWithin(t: Node, p: Path)
    requires Resolve(t, p).Some?
    ensures Within(Resolve(t, p).value, t)
    decreases |p|
  {
    if p != [] {
      ResolvedWithin(t.kids[p[0]], p[1..]);
    }
  }

  /** The tree with the entries of the directory at `p` replaced. */
  ghost function Edit(t: Node, p: Path, kids: map<Name, Node>): (t': Node)
    requires IsDir(t, p)
    ensures t'.Dir? && t.Dir? && t'.id == t.id
    decreases |p|
  {
    if p == [] then Dir(t.id, kids)
    else Dir(t.id, t.kids[p[0] := Edit(t.kids[p[0]], p[1..], kids)])
  }

  /** The ids of the directories along `p`, as far as it exists, the top one included. */
  ghost function Chain(t: Node, p: Path): (ids: set<Id>)
    ensures t.Dir? ==> t.id in ids
    decreases |p|
  {
    if !t.Dir? then {}
    else {t.id} + if p != [] && p[0] in t.kids then Chain(t.kids[p[0]], p[1..]) else {}
  }

  /** After an edit every directory is on the edited chain, or was there before, or came with the edit. */
  lemma {:induction false} EditTouches(t: Node, p: Path, kids: map<Name, Node>, e: Node)
    requires IsDir(t, p) && e.Dir? && Within(e, Edit(t, p, kids))
    ensures e.id in Chain(t, p) || Within(e, t) || exists n :: n in kids && Within(e, kids[n])
    decreases |p|
  {
    var t' := Edit(t, p, kids);
    if e != t' {
      var n :| n in t'.kids && Within(e, t'.kids[n]);
      if p != [] && n == p[0] {
        EditTouches(t.kids[n], p[1..], kids, e);
      }
    }
  }

  /** An edit that leaves the next directory on the way to `q` in place does not shorten its chain. */
  lemma {:induction false} EditKeepsChain(t: Node, p: Path, kids: map<Name, Node>, q: Path)
    requires IsDir(t, p)
    requires p <= q && |p| < |q| && q[|p|] in Resolve(t, p).value.kids ==>
               q[|p|] in kids && kids[q[|p|]] == Resolve(t, p).value.kids[q[|p|]]
    ensures Chain(t, q) <= Chain(Edit(t, p, kids), q)
    decreases |p|
  {
    if p != [] && q != [] && p[0] == q[0] {
      EditKeepsChain(t.kids[p[0]], p[1..], kids, q[1..]);
    }
  }

  lemma {:induction false} EditChain(t: Node, p: Path, kids: map<Name, Node>)
    requires IsDir(t, p)
    ensures Chain(Edit(t, p, kids), p) == Chain(t, p)
    decreases |p|
  {
    if p != [] {
      EditChain(t.kids[p[0]], p[1..], kids);
    }
  }

  // ---- The cache.

  datatype Row = Row(agg: Aggregate, gen: nat, valid: bool)

  /** The rows of one share, the ids it has handed out, and its generation. */
  datatype Cache = Cache(rows: map<Id, Row>, known: set<Id>, gen: nat)

  /** `DirEtag`: only a clean row of the current generation answers. */
  function DirEtag(c: Cache, id: Id): Option<Aggregate> {
    if id in c.rows && c.rows[id].valid && c.rows[id].gen == c.gen then Some(c.rows[id].agg) else None
  }

  /** `PutDirEtag`, `MarkDirty` and `BumpShareGen`. */
  function Put(c: Cache, id: Id, agg: Aggregate, gen: nat): Cache {
    c.(rows := c.rows[id := Row(agg, gen, true)])
  }

  function Dirty(c: Cache, ids: set<Id>): Cache {
    c.(rows := map id | id in c.rows.Keys + ids ::
         if id !in ids then c.rows[id]
         else if id in c.rows then c.rows[id].(valid := false)
         else Row(Aggregate("", 0, 0), 0, false))
  }

  function Bump(c: Cache): Cache {
    c.(gen := c.gen + 1)
  }

  /** Every row that would answer for a directory of the tree answers the rollup from scratch. */
  ghost predicate Honest(hash: string -> string, t: Node, c: Cache) {
    && (forall id :: id in c.rows ==> c.rows[id].gen <= c.gen && (id in c.known || id == ROOT_ID))
    && forall d :: Within(d, t) && d.Dir? && DirEtag(c, d.id).Some? ==> DirEtag(c, d.id).value == Rollup(hash, d)
  }

  /** A change of the tree as the stable ids see it: every directory is marked, unchanged, or new to the cache. */
  ghost predicate Touches(t: Node, t': Node, marked: set<Id>, c: Cache) {
    forall e :: Within(e, t') && e.Dir? ==> e.id in marked || Within(e, t) || (e.id !in c.known && e.id != ROOT_ID)
  }

  lemma MarkedChangeStaysHonest(hash: string -> string, t: Node, t': Node, marked: set<Id>, c: Cache)
    requires Honest(hash, t, c) && Touches(t, t', marked, c)
    ensures Honest(hash, t', Dirty(c, marked * (c.known + {ROOT_ID})))
  {
    var c' := Dirty(c, marked * (c.known + {ROOT_ID}));
    forall d | Within(d, t') && d.Dir? && DirEtag(c', d.id).Some?
      ensures DirEtag(c', d.id).value == Rollup(hash, d)
    {
      assert d.id in c.rows;
      assert d.id !in marked;
      assert Within(d, t);
      assert DirEtag(c, d.id) == DirEtag(c', d.id);
    }
  }

  /** A bump needs no marks: no row survives it. */
  lemma BumpIsHonest(hash: string -> string, t: Node, t': Node, c: Cache)
    requires Honest(hash, t, c)
    ensures Honest(hash, t', Bump(c))
  {
  }

  /** New entries hold only files, subtrees that were already there, and directories the cache never saw. */
  ghost predicate Plausible(t: Node, kids: map<Name, Node>, c: Cache) {
    forall n, e :: n in kids && Within(e, kids[n]) && e.Dir? ==> Within(e, t) || (e.id !in c.known && e.id != ROOT_ID)
  }

  /** Creating, writing, removing: one directory's entries change. */
  lemma EditIsTouch(t: Node, p: Path, kids: map<Name, Node>, c: Cache)
    requires IsDir(t, p) && Plausible(t, kids, c)
    ensures Touches(t, Edit(t, p, kids), Chain(Edit(t, p, kids), p), c)
  {
    EditChain(t, p, kids);
    forall e | Within(e, Edit(t, p, kids)) && e.Dir?
      ensures e.id in Chain(t, p) || Within(e, t) || (e.id !in c.known && e.id != ROOT_ID)
    {
      EditTouches(t, p, kids, e);
    }
  }

  ghost predicate Movable(t: Node, src: Path, n: Name, dst: Path, m: Name) {
    && IsDir(t, src) && n in Resolve(t, src).value.kids
    && var t1 := Edit(t, src, Resolve(t, src).value.kids - {n});
       IsDir(t1, dst) && !(dst + [m] <= src)
  }

  /** A rename: the entry leaves one directory and appears, subtree and all, in another, replacing what was there. */
  ghost function Move(t: Node, src: Path, n: Name, dst: Path, m: Name): Node
    requires Movable(t, src, n, dst, m)
  {
    var from := Resolve(t, src).value;
    var t1 := Edit(t, src, from.kids - {n});
    Edit(t1, dst, Resolve(t1, dst).value.kids[m := from.kids[n]])
  }

  lemma MoveIsTouch(t: Node, src: Path, n: Name, dst: Path, m: Name, c: Cache)
    requires Movable(t, src, n, dst, m)
    ensures var t' := Move(t, src, n, dst, m); Touches(t, t', Chain(t', src) + Chain(t', dst), c)
  {
    var from := Resolve(t, src).value;
    var t1 := Edit(t, src, from.kids - {n});
    var into := Resolve(t1, dst).value;
    var kids := into.kids[m := from.kids[n]];
    var t' := Edit(t1, dst, kids);
    EditChain(t, src, from.kids - {n});
    EditChain(t1, dst, kids);
    assert dst <= src && |dst| < |src| && src[|dst|] == m ==> dst + [m] <= src;
    EditKeepsChain(t1, dst, kids, src);
    ResolvedWithin(t, src);
    ResolvedWithin(t1, dst);
    forall e | Within(e, t') && e.Dir?
      ensures e.id in Chain(t', src) + Chain(t', dst) || Within(e, t)
    {
      EditTouches(t1, dst, kids, e);
      if e.id !in Chain(t1, dst) {
        MovedFrom(t, src, n, t1, into, m, kids, e);
      }
    }
  }

  lemma {:induction false} MovedFrom(t: Node, src: Path, n: Name, t1: Node, into: Node, m: Name, kids: map<Name, Node>,
          e: Node)
    requires IsDir(t, src) && n in Resolve(t, src).value.kids
    requires t1 == Edit(t, src, Resolve(t, src).value.kids - {n})
    requires into.Dir? && Within(into, t1) && Within(Resolve(t, src).value, t) && e.Dir?
    requires kids == into.kids[m := Resolve(t, src).value.kids[n]]
    requires Within(e, t1) || exists x :: x in kids && Within(e, kids[x])
    ensures e.id in Chain(t, src) || Within(e, t)
  {
    var from := Resolve(t, src).value;
    if !Within(e, t1) {
      var x :| x in kids && Within(e, kids[x]);
      if x == m {
        assert Within(e, from);
        WithinTransitive(e, from, t);
      } else {
        assert Within(e, into);
        WithinTransitive(e, into, t1);
      }
    }
    if Within(e, t1) && !Within(e, t) {
      EditTouches(t, src, from.kids - {n}, e);
      if y :| y in from.kids - {n} && Within(e, (from.kids - {n})[y]) {
        assert Within(e, from);
        WithinTransitive(e, from, t);
      }
    }
  }

  /**
   Storing a rollup is honest exactly when it is the directory's rollup at that moment. A walk
   that read the directory before a change and stores after the change was marked breaks it,
   unless a generation bump came between.
   */
  lemma {:induction false} StoreHonestExactlyWhenCurrent(hash: string -> string, t: Node, c: Cache, d: Node,
          agg: Aggregate, gen: nat)
    requires Honest(hash, t, c) && UniqueIds(t) && Within(d, t) && d.Dir?
    requires d.id in c.known || d.id == ROOT_ID
    requires gen <= c.gen
    ensures Honest(hash, t, Put(c, d.id, agg, gen)) <==> gen < c.gen || agg == Rollup(hash, d)
  {
    var c' := Put(c, d.id, agg, gen);
    assert DirEtag(c', d.id) == if gen == c.gen then Some(agg) else None;
    if gen < c.gen || agg == Rollup(hash, d) {
      forall e | Within(e, t) && e.Dir? && DirEtag(c', e.id).Some?
        ensures DirEtag(c', e.id).value == Rollup(hash, e)
      {
        if e.id == d.id {
          IdNamesOne(e, d, t);
        } else {
          assert DirEtag(c', e.id) == DirEtag(c, e.id);
        }
      }
    }
  }

  /** Without its mark, or a bump, an edited directory with a clean row keeps answering the old rollup. */
  lemma {:induction false} MarkIsNeeded(hash: string -> string, t: Node, p: Path, kids: map<Name, Node>, c: Cache,
          ids: set<Id>)
    requires Honest(hash, t, c) && IsDir(t, p)
    requires var d := Resolve(t, p).value;
             DirEtag(c, d.id).Some? && Rollup(hash, Dir(d.id, kids)) != Rollup(hash, d)
    ensures Honest(hash, Edit(t, p, kids), Dirty(c, ids)) ==> Resolve(t, p).value.id in ids
  {
    var d := Resolve(t, p).value;
    ResolvedWithin(t, p);
    EditResolves(t, p, kids);
    ResolvedWithin(Edit(t, p, kids), p);
    if d.id !in ids {
      assert DirEtag(Dirty(c, ids), d.id) == DirEtag(c, d.id);
    }
  }

  /** The id of a directory on the chain of a path belongs to one of the path's prefixes. */
  lemma {:induction false} ChainHolds(t: Node, p: Path, id: Id) returns (i: nat)
    requires IsDir(t, p) && id in Chain(t, p)
    ensures i <= |p| && IsDir(t, p[..i]) && Resolve(t, p[..i]).value.id == id
    decreases |p|
  {
    if id == t.id {
      i := 0;
    } else {
      var j := ChainHolds(t.kids[p[0]], p[1..], id);
      i := j + 1;
      assert p[..i][1..] == p[1..][..j];
    }
  }

  lemma {:induction false} PrefixIsDir(t: Node, p: Path, i: nat)
    requires IsDir(t, p) && i <= |p|
    ensures IsDir(t, p[..i])
    decreases |p|
  {
    if i > 0 {
      PrefixIsDir(t.kids[p[0]], p[1..], i - 1);
      assert p[..i][1..] == p[1..][..i - 1];
    }
  }

  lemma {:induction false} EditKeepsIds(t: Node, p: Path, kids: map<Name, Node>, i: nat)
    requires IsDir(t, p) && i <= |p|
    ensures IsDir(t, p[..i]) && IsDir(Edit(t, p, kids), p[..i])
    ensures Resolve(Edit(t, p, kids), p[..i]).value.id == Resolve(t, p[..i]).value.id
    decreases |p|
  {
    if i > 0 {
      EditKeepsIds(t.kids[p[0]], p[1..], kids, i - 1);
      assert p[..i][1..] == p[1..][..i - 1];
    }
  }

  /** A change at `p` that every rollup from the root down to `p` tells. */
  ghost predicate Shows(hash: string -> string, t: Node, t': Node, p: Path) {
    forall i :: 0 <= i <= |p| ==> Differs(hash, t, t', p[..i])
  }

  ghost predicate Differs(hash: string -> string, t: Node, t': Node, q: Path) {
    IsDir(t, q) && IsDir(t', q) && Rollup(hash, Resolve(t, q).value) != Rollup(hash, Resolve(t', q).value)
  }

  /** The directory of that id is in both trees, and its rollup tells them apart. */
  ghost predicate Told(hash: string -> string, t: Node, t': Node, id: Id) {
    exists d, e ::
      && Within(d, t) && Within(e, t') && d.Dir? && e.Dir? && d.id == id && e.id == id
      && Rollup(hash, d) != Rollup(hash, e)
  }

  /** A path's directories keep their ids. */
  ghost predicate SameAlong(t: Node, t': Node, p: Path) {
    forall i :: 0 <= i <= |p| ==> SameAt(t, t', p[..i])
  }

  ghost predicate SameAt(t: Node, t': Node, q: Path) {
    IsDir(t, q) && IsDir(t', q) ==> Resolve(t, q).value.id == Resolve(t', q).value.id
  }

  lemma ShownIsTold(hash: string -> string, t: Node, t': Node, p: Path, id: Id)
    requires Shows(hash, t, t', p) && SameAlong(t, t', p) && IsDir(t', p) && id in Chain(t', p)
    ensures Told(hash, t, t', id)
  {
    var i := ChainHolds(t', p, id);
    assert Differs(hash, t, t', p[..i]) && SameAt(t, t', p[..i]);
    ResolvedWithin(t, p[..i]);
    ResolvedWithin(t', p[..i]);
  }

  /** A row that still answers for a directory the change tells apart is not honest any more. */
  lemma UnmarkedLies(hash: string -> string, t: Node, t': Node, c: Cache, c': Cache, id: Id)
    requires Honest(hash, t, c) && Told(hash, t, t', id)
    requires DirEtag(c, id).Some? && DirEtag(c', id) == DirEtag(c, id)
    ensures !Honest(hash, t', c')
  {
    var d, e :| && Within(d, t) && Within(e, t') && d.Dir? && e.Dir? && d.id == id && e.id == id
                && Rollup(hash, d) != Rollup(hash, e);
    assert DirEtag(c, d.id).value == Rollup(hash, d);
  }

  /** Which marks a change may do without: those of directories whose rows do not answer. */
  lemma HonestExactlyWhenMarked(hash: string -> string, t: Node, t': Node, touched: set<Id>, c: Cache, ids: set<Id>)
    requires Honest(hash, t, c) && Touches(t, t', touched, c) && ids <= c.known + {ROOT_ID}
    requires forall id :: id in touched && DirEtag(c, id).Some? ==> Told(hash, t, t', id)
    ensures Honest(hash, t', Dirty(c, ids)) <==> forall id :: id in touched && DirEtag(c, id).Some? ==> id in ids
  {
    var c' := Dirty(c, ids);
    forall id ensures DirEtag(c', id) == if id in ids then None else DirEtag(c, id) {}
    if forall id :: id in touched && DirEtag(c, id).Some? ==> id in ids {
      forall d | Within(d, t') && d.Dir? && DirEtag(c', d.id).Some?
        ensures DirEtag(c', d.id).value == Rollup(hash, d)
      {
        assert d.id in c.rows;
      }
    } else {
      var id :| id in touched && DirEtag(c, id).Some? && id !in ids;
      UnmarkedLies(hash, t, t', c, c', id);
    }
  }

  lemma EditIsTold(hash: string -> string, t: Node, p: Path, kids: map<Name, Node>, id: Id)
    requires IsDir(t, p) && Shows(hash, t, Edit(t, p, kids), p) && id in Chain(t, p)
    ensures Told(hash, t, Edit(t, p, kids), id)
  {
    forall i | 0 <= i <= |p| ensures SameAt(t, Edit(t, p, kids), p[..i]) {
      EditKeepsIds(t, p, kids, i);
    }
    EditKeepsIds(t, p, kids, |p|);
    assert p[..|p|] == p;
    EditChain(t, p, kids);
    ShownIsTold(hash, t, Edit(t, p, kids), p, id);
  }

  /**
   After an edit that shows, marking `ids` leaves the cache honest exactly when every directory of
   the chain whose row still answers is among them.
   */
  lemma EditHonestExactlyWhen(hash: string -> string, t: Node, p: Path, kids: map<Name, Node>, c: Cache, ids: set<Id>)
    requires Honest(hash, t, c) && IsDir(t, p) && Plausible(t, kids, c) && ids <= c.known + {ROOT_ID}
    requires Shows(hash, t, Edit(t, p, kids), p)
    ensures Honest(hash, Edit(t, p, kids), Dirty(c, ids)) <==>
              forall id :: id in Chain(t, p) && DirEtag(c, id).Some? ==> id in ids
  {
    EditIsTouch(t, p, kids, c);
    EditChain(t, p, kids);
    forall id | id in Chain(t, p) ensures Told(hash, t, Edit(t, p, kids), id) {
      EditIsTold(hash, t, p, kids, id);
    }
    HonestExactlyWhenMarked(hash, t, Edit(t, p, kids), Chain(t, p), c, ids);
  }

  /** An edit elsewhere leaves a directory its id. */
  lemma {:induction false} EditKeepsId(t: Node, p: Path, kids: map<Name, Node>, q: Path)
    requires IsDir(t, p) && IsDir(t, q) && IsDir(Edit(t, p, kids), q)
    requires p <= q && |p| < |q| && q[|p|] in Resolve(t, p).value.kids && q[|p|] in kids ==>
               kids[q[|p|]] == Resolve(t, p).value.kids[q[|p|]]
    ensures Resolve(Edit(t, p, kids), q).value.id == Resolve(t, q).value.id
    decreases |p|
  {
    if p != [] && q != [] && p[0] == q[0] {
      EditKeepsId(t.kids[p[0]], p[1..], kids, q[1..]);
    }
  }

  lemma MoveKeepsSource(t: Node, src: Path, n: Name, dst: Path, m: Name, i: nat)
    requires Movable(t, src, n, dst, m) && i <= |src|
    ensures SameAt(t, Move(t, src, n, dst, m), src[..i])
  {
    var from := Resolve(t, src).value;
    var t1 := Edit(t, src, from.kids - {n});
    EditKeepsIds(t, src, from.kids - {n}, i);
    var into, q := Resolve(t1, dst).value, src[..i];
    assert dst <= q && |dst| < |q| && q[|dst|] == m ==> dst + [m] <= src;
    if IsDir(Move(t, src, n, dst, m), q) {
      EditKeepsId(t1, dst, into.kids[m := from.kids[n]], q);
    }
  }

  lemma MoveKeepsTarget(t: Node, src: Path, n: Name, dst: Path, m: Name, i: nat)
    requires Movable(t, src, n, dst, m) && i <= |dst|
    ensures SameAt(t, Move(t, src, n, dst, m), dst[..i])
  {
    var from := Resolve(t, src).value;
    var t1 := Edit(t, src, from.kids - {n});
    var into, q := Resolve(t1, dst).value, dst[..i];
    EditKeepsIds(t1, dst, into.kids[m := from.kids[n]], i);
    if IsDir(t, q) {
      EditKeepsId(t, src, from.kids - {n}, q);
    }
  }

  /** A rename that shows on both of its chains. */
  ghost predicate MoveShows(hash: string -> string, t: Node, t': Node, src: Path, dst: Path) {
    Shows(hash, t, t', src) && Shows(hash, t, t', dst)
  }

  lemma MoveIsTold(hash: string -> string, t: Node, src: Path, n: Name, dst: Path, m: Name, id: Id)
    requires Movable(t, src, n, dst, m)
    requires var t' := Move(t, src, n, dst, m);
             MoveShows(hash, t, t', src, dst) && id in Chain(t', src) + Chain(t', dst)
    ensures Told(hash, t, Move(t, src, n, dst, m), id)
  {
    var t' := Move(t, src, n, dst, m);
    assert src[..|src|] == src && dst[..|dst|] == dst;
    assert Differs(hash, t, t', src[..|src|]) && Differs(hash, t, t', dst[..|dst|]);
    if id in Chain(t', src) {
      forall i | 0 <= i <= |src| ensures SameAt(t, t', src[..i]) {
        MoveKeepsSource(t, src, n, dst, m, i);
      }
      ShownIsTold(hash, t, t', src, id);
    } else {
      forall i | 0 <= i <= |dst| ensures SameAt(t, t', dst[..i]) {
        MoveKeepsTarget(t, src, n, dst, m, i);
      }
      ShownIsTold(hash, t, t', dst, id);
    }
  }

  /** After a rename that shows, the same holds of the two chains together. */
  lemma MoveHonestExactlyWhen(hash: string -> string, t: Node, src: Path, n: Name, dst: Path, m: Name, c: Cache,
          ids: set<Id>)
    requires Honest(hash, t, c) && Movable(t, src, n, dst, m) && ids <= c.known + {ROOT_ID}
    requires MoveShows(hash, t, Move(t, src, n, dst, m), src, dst)
    ensures var t' := Move(t, src, n, dst, m);
            Honest(hash, t', Dirty(c, ids)) <==>
              forall id :: id in Chain(t', src) + Chain(t', dst) && DirEtag(c, id).Some? ==> id in ids
  {
    var t' := Move(t, src, n, dst, m);
    MoveIsTouch(t, src, n, dst, m, c);
    forall id | id in Chain(t', src) + Chain(t', dst) ensures Told(hash, t, t', id) {
      MoveIsTold(hash, t, src, n, dst, m, id);
    }
    HonestExactlyWhenMarked(hash, t, t', Chain(t', src) + Chain(t', dst), c, ids);
  }

  /** The ids `markChainDirty` collects: the root always, the rest of the chain where an id is known. */
  ghost function Marks(t: Node, p: Path, known: set<Id>): set<Id> {
    {ROOT_ID} + Chain(t, p) * known
  }

  lemma {:induction false} EditResolves(t: Node, p: Path, kids: map<Name, Node>)
    requires IsDir(t, p)
    ensures Resolve(Edit(t, p, kids), p) == Some(Dir(Resolve(t, p).value.id, kids))
    decreases |p|
  {
    if p != [] {
      EditResolves(t.kids[p[0]], p[1..], kids);
    }
  }
}
