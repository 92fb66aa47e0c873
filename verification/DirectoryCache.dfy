/** The directory cache as the object that computes, changes and invalidates (files/aggregate.go). */
module DirectoryCache {
  import opened Octets
  import opened Ordering
  import opened Aggregates

  datatype WalkError = NotFound | StoreFailed

  class Core {
    var tree: Node
    var cache: Cache

    ghost predicate Valid(hash: string -> string)
      reads this
    {
      tree.Dir? && tree.id == ROOT_ID && UniqueIds(tree) && Honest(hash, tree, cache)
    }

    constructor (hash: string -> string, tree: Node)
      requires tree.Dir? && tree.id == ROOT_ID && UniqueIds(tree)
      ensures Valid(hash) && this.tree == tree
    {
      this.tree := tree;
      cache := Cache(map[], {}, 0);
    }

    /** A directory read, in whatever order the kernel returns the names. */
    static method ReadDir(d: Node) returns (listing: seq<Name>)
      requires d.Dir?
      ensures Enumerates(listing, d.kids.Keys)
    {
      listing := [];
      var todo := d.kids.Keys;
      while todo != {}
        invariant Enumerates(listing, d.kids.Keys - todo) && todo <= d.kids.Keys
        decreases |todo|
      {
        var n :| n in todo;
        assert n !in Elements(listing);
        assert Elements(listing + [n]) == Elements(listing) + {n};
        todo := todo - {n};
        listing := listing + [n];
      }
      assert d.kids.Keys - todo == d.kids.Keys;
    }

    /** `upsertDir`: hand out the directory's stable id, or fail. */
    method UpsertDir(hash: string -> string, id: Id, unstorable: set<Id>) returns (ok: bool)
      requires Valid(hash)
      modifies `cache
      ensures Valid(hash) && cache.gen == old(cache.gen) && cache.rows == old(cache.rows)
      ensures ok <==> id !in unstorable
      ensures cache.known == old(cache.known) + if ok then {id} else {}
    {
      ok := id !in unstorable;
      if ok {
        cache := Cache(cache.rows, cache.known + {id}, cache.gen);
        assert forall i :: DirEtag(cache, i) == DirEtag(old(cache), i);
      }
    }

    /**
     `computeAggregate`: the cached row if it still answers, else a walk. Bumps by others may land
     between any two entries and rows may fail to be stored (`lost`); what is returned is the rollup,
     and something is returned unless an id beneath the directory cannot be stored (`unstorable`).
     */
    method ComputeAggregate(hash: string -> string, dir: Node, gen: nat, unstorable: set<Id>, lost: set<Id>)
      returns (res: Result<Aggregate, WalkError>)
      requires Valid(hash) && dir.Dir? && Within(dir, tree) && gen <= cache.gen
      requires dir.id == ROOT_ID || dir.id in cache.known
      modifies `cache
      ensures Valid(hash) && old(cache.known) <= cache.known && old(cache.gen) <= cache.gen
      ensures res.Ok? ==> res.value == Rollup(hash, dir)
      ensures res.Err? ==> res == Err(StoreFailed) && unstorable * Ids(dir) != {}
      decreases dir, 2
    {
      var hit := DirEtag(cache, dir.id);
      if hit.Some? {
        return Ok(hit.value);
      }
      var listing := ReadDir(dir);
      var names := Sort(StrLess, listing);
      ReadOrderIsIrrelevant(listing, dir.kids.Keys);
      assert forall n :: n in names ==> n in Elements(names);

      var walked := WalkEntries(hash, dir, names, gen, unstorable, lost);
      if walked.Err? {
        return Err(walked.error);
      }
      var agg := Aggregate(hash(walked.value.input), walked.value.size, walked.value.count);
      StoreRow(hash, dir, agg, gen, lost);
      res := Ok(agg);
    }

    /** The loop over the sorted names, feeding the hasher and the two counters. */
    method WalkEntries(
        hash: string -> string, dir: Node, names: seq<Name>, gen: nat, unstorable: set<Id>, lost: set<Id>)
      returns (res: Result<Sums, WalkError>)
      requires Valid(hash) && dir.Dir? && Within(dir, tree) && gen <= cache.gen
      requires forall n :: n in names ==> n in dir.kids
      modifies `cache
      ensures Valid(hash) && old(cache.known) <= cache.known && old(cache.gen) <= cache.gen
      ensures res.Ok? ==> res.value == Fold(hash, dir, names)
      ensures res.Err? ==> res == Err(StoreFailed) && unstorable * Ids(dir) != {}
      decreases dir, 1
    {
      var sums := Sums("", 0, 0);
      for i := 0 to |names|
        invariant Valid(hash) && old(cache.known) <= cache.known && old(cache.gen) <= cache.gen
        invariant sums == Fold(hash, dir, names[..i])
      {
        var part := ChildAggregate(hash, dir, names[i], gen, unstorable, lost);
        if part.Err? {
          ghost var id :| id in unstorable * Ids(dir.kids[names[i]]);
          assert id in Ids(dir);
          return Err(part.error);
        }
        FoldLast(hash, dir, names[..i], names[i]);
        assert names[..i] + [names[i]] == names[..i + 1];
        sums := Add(sums, names[i], part.value.etag, part.value.rsize, part.value.rcount);
      }
      assert names[..|names|] == names;
      res := Ok(sums);
    }

    /** What one entry of the walk contributes: a file its own token, a directory its own rollup. */
    method ChildAggregate(hash: string -> string, dir: Node, name: Name, gen: nat, unstorable: set<Id>, lost: set<Id>)
      returns (res: Result<Aggregate, WalkError>)
      requires Valid(hash) && dir.Dir? && Within(dir, tree) && gen <= cache.gen && name in dir.kids
      modifies `cache
      ensures Valid(hash) && old(cache.known) <= cache.known && old(cache.gen) <= cache.gen
      ensures res.Ok? ==> res.value == Entry(hash, dir.kids[name]).0
      ensures res.Err? ==> res == Err(StoreFailed) && unstorable * Ids(dir.kids[name]) != {}
      decreases dir, 0
    {
      if * {
        InvalidateShare(hash);
      }
      var child := dir.kids[name];
      if child.File? {
        return Ok(Aggregate(child.etag, child.size, 1));
      }
      var ok := UpsertDir(hash, child.id, unstorable);
      if !ok {
        assert child.id in unstorable * Ids(child);
        return Err(StoreFailed);
      }
      assert Within(child, dir);
      WithinTransitive(child, dir, tree);
      res := ComputeAggregate(hash, child, gen, unstorable, lost);
    }

    /** The finished row, stamped with the generation the walk began under; failing to store it is no failure. */
    method StoreRow(hash: string -> string, dir: Node, agg: Aggregate, gen: nat, lost: set<Id>)
      requires Valid(hash) && dir.Dir? && Within(dir, tree) && gen <= cache.gen
      requires dir.id == ROOT_ID || dir.id in cache.known
      requires agg == Rollup(hash, dir)
      modifies `cache
      ensures Valid(hash) && cache == if dir.id in lost then old(cache) else Put(old(cache), dir.id, agg, gen)
    {
      if dir.id !in lost {
        StoreHonestExactlyWhenCurrent(hash, tree, cache, dir, agg, gen);
        cache := Put(cache, dir.id, agg, gen);
      }
    }

    /**
     `Aggregate`: stable ids down the path, then the rollup of the directory it names. The tree is
     at rest meanwhile; module `RollupWalks` says what a change in between does.
     */
    method AggregateOf(hash: string -> string, p: Path, unstorable: set<Id>, lost: set<Id>)
      returns (res: Result<Aggregate, WalkError>)
      requires Valid(hash)
      modifies `cache
      ensures Valid(hash)
      ensures res.Ok? ==> IsDir(tree, p) && res.value == Rollup(hash, Resolve(tree, p).value)
      ensures res == Err(NotFound) ==> !IsDir(tree, p)
      ensures unstorable == {} ==> (res.Ok? <==> IsDir(tree, p))
    {
      var gen := cache.gen;
      var cur := tree;
      assert p[0..] == p;
      for i := 0 to |p|
        invariant Valid(hash) && gen <= cache.gen
        invariant Resolve(tree, p) == Resolve(cur, p[i..]) && Within(cur, tree)
        invariant cur.Dir? ==> cur.id == ROOT_ID || cur.id in cache.known
      {
        if !cur.Dir? || p[i] !in cur.kids {
          return Err(NotFound);
        }
        assert p[i..][1..] == p[i + 1..];
        assert Within(cur.kids[p[i]], cur);
        WithinTransitive(cur.kids[p[i]], cur, tree);
        cur := cur.kids[p[i]];
        if cur.Dir? {
          var ok := UpsertDir(hash, cur.id, unstorable);
          if !ok {
            return Err(StoreFailed);
          }
        }
      }
      if !cur.Dir? {
        return Err(NotFound);
      }
      res := ComputeAggregate(hash, cur, gen, unstorable, lost);
    }

    /** `InvalidateShare`. */
    method InvalidateShare(hash: string -> string)
      requires Valid(hash)
      modifies `cache
      ensures Valid(hash) && cache == Bump(old(cache))
    {
      BumpIsHonest(hash, tree, tree, cache);
      cache := Bump(cache);
    }

    /**
     `markChainDirty`, and its fallback to the whole share. `unread` are the directories whose stat
     or id lookup fails; such a directory is skipped without any fallback.
     */
    method MarkChainDirty(p: Path, unread: set<Id>, marks: bool, bumps: bool)
      requires tree.Dir? && tree.id == ROOT_ID
      modifies `cache
      ensures cache == Invalidated(tree, p, old(cache), unread, marks, bumps)
    {
      var chain := {ROOT_ID};
      var cur := tree;
      ghost var known := cache.known - unread;
      var i := 0;
      assert p[0..] == p;
      while i < |p| && cur.Dir? && p[i] in cur.kids
        invariant 0 <= i <= |p| && ROOT_ID in chain && cache == old(cache)
        invariant cur.Dir? && cur.id in known ==> cur.id in chain
        invariant chain + Chain(cur, p[i..]) * known == Marks(tree, p, known)
        decreases |p| - i
      {
        ChainStep(cur, p[i..]);
        assert p[i..][1..] == p[i + 1..];
        cur := cur.kids[p[i]];
        i := i + 1;
        if cur.Dir? && cur.id in cache.known && cur.id !in unread {
          assert cur.id in Chain(cur, p[i..]) * known;
          chain := chain + {cur.id};
        }
      }
      assert Chain(cur, p[i..]) * known <= chain;
      if marks {
        cache := Dirty(cache, chain);
      } else if bumps {
        cache := Bump(cache);
      }
    }

    /** What mutations keep even when no marking lands. */
    ghost predicate Sound()
      reads this
    {
      tree.Dir? && tree.id == ROOT_ID && UniqueIds(tree)
    }

    /**
     A change of one directory's entries, then the marking every mutation performs. Rows stay honest
     when the marking reads the whole chain, or falls back to a bump; for a change that shows,
     exactly when no row of the chain that still answers is left unmarked.
     */
    method ChangeDir(
        hash: string -> string, p: Path, kids: map<Name, Node>, unread: set<Id>, marks: bool, bumps: bool)
      requires Valid(hash) && IsDir(tree, p) && Plausible(tree, kids, cache) && UniqueIds(Edit(tree, p, kids))
      modifies this
      ensures Sound() && tree == Edit(old(tree), p, kids)
      ensures cache == Invalidated(tree, p, old(cache), unread, marks, bumps)
      ensures Repairs(old(tree), p, old(cache), unread, marks, bumps) ==> Valid(hash)
      ensures Shows(hash, old(tree), tree, p) ==>
                (Valid(hash) <==> (!marks && bumps) || NoneLeft(old(tree), p, old(cache), unread, marks))
    {
      ChangeIsHonest(hash, tree, p, kids, cache, unread, marks, bumps);
      tree := Write(tree, p, kids);
      MarkChainDirty(p, unread, marks, bumps);
    }

    /** The filesystem write itself. */
    static method Write(t: Node, p: Path, kids: map<Name, Node>) returns (t': Node)
      requires IsDir(t, p)
      ensures t' == Edit(t, p, kids)
      decreases |p|
    {
      if p == [] {
        t' := Dir(t.id, kids);
      } else {
        var below := Write(t.kids[p[0]], p[1..], kids);
        t' := Dir(t.id, t.kids[p[0] := below]);
      }
    }

    /**
     A rename, then one marking for each of the two directories it touched. Rows stay honest when
     both markings read their whole chain, or either falls back to a bump; for a rename that shows,
     exactly when a bump comes or no row of the two chains that still answers is left by both.
     */
    method MoveEntry(
        hash: string -> string, src: Path, n: Name, dst: Path, m: Name, unread: set<Id>, marks: (bool, bool),
        bumps: (bool, bool))
      requires Valid(hash) && Movable(tree, src, n, dst, m) && UniqueIds(Move(tree, src, n, dst, m))
      modifies this
      ensures Sound() && tree == Move(old(tree), src, n, dst, m)
      ensures FellBack(marks, bumps) || (marks == (true, true) && BothRead(tree, src, dst, old(cache), unread)) ==>
                Valid(hash)
      ensures MoveShows(hash, old(tree), tree, src, dst) ==>
                (Valid(hash) <==> FellBack(marks, bumps) || NoneLeftOfTwo(tree, src, dst, old(cache), unread, marks))
    {
      MoveIsHonest(hash, tree, src, n, dst, m, cache, unread, marks, bumps);
      if MoveShows(hash, tree, Move(tree, src, n, dst, m), src, dst) {
        MoveIsHonestExactlyWhen(hash, tree, src, n, dst, m, cache, unread, marks, bumps);
      }
      var from := Resolve(tree, src).value;
      var emptied := Write(tree, src, from.kids - {n});
      var into := Resolve(emptied, dst).value;
      tree := Write(emptied, dst, into.kids[m := from.kids[n]]);
      MarkChainDirty(src, unread, marks.0, bumps.0);
      MarkChainDirty(dst, unread, marks.1, bumps.1);
    }
  }

  /** The cache after `markChainDirty` and its fallback. */
  ghost function Invalidated(t: Node, p: Path, c: Cache, unread: set<Id>, marks: bool, bumps: bool): Cache {
    if marks then Dirty(c, Marks(t, p, c.known - unread)) else if bumps then Bump(c) else c
  }

  /** A marking that leaves out no directory the cache knows, or a bump in its place. */
  ghost predicate Repairs(t: Node, p: Path, c: Cache, unread: set<Id>, marks: bool, bumps: bool) {
    if marks then Chain(t, p) * c.known * unread <= {ROOT_ID} else bumps
  }

  /** No known directory of either chain is left out. */
  ghost predicate BothRead(t: Node, src: Path, dst: Path, c: Cache, unread: set<Id>) {
    (Chain(t, src) + Chain(t, dst)) * c.known * unread <= {ROOT_ID}
  }

  /** Every directory of the chain whose row still answers is marked. */
  ghost predicate NoneLeft(t: Node, p: Path, c: Cache, unread: set<Id>, marks: bool) {
    forall id :: id in Chain(t, p) && DirEtag(c, id).Some? ==>
      marks && (id == ROOT_ID || (id in c.known && id !in unread))
  }

  /** One of the two markings failed and the generation was bumped in its place. */
  predicate FellBack(marks: (bool, bool), bumps: (bool, bool)) {
    (!marks.0 && bumps.0) || (!marks.1 && bumps.1)
  }

  /** What a marking that lands marks. */
  ghost function Landed(t: Node, p: Path, c: Cache, unread: set<Id>, marks: bool): set<Id> {
    if marks then Marks(t, p, c.known - unread) else {}
  }

  /** Every directory of the two chains whose row still answers is marked by one of the markings. */
  ghost predicate NoneLeftOfTwo(t: Node, src: Path, dst: Path, c: Cache, unread: set<Id>, marks: (bool, bool)) {
    forall id :: id in Chain(t, src) + Chain(t, dst) && DirEtag(c, id).Some? ==>
      id in Landed(t, src, c, unread, marks.0) + Landed(t, dst, c, unread, marks.1)
  }

  lemma ChainStep(t: Node, p: Path)
    requires t.Dir? && p != [] && p[0] in t.kids
    ensures Chain(t, p) == {t.id} + Chain(t.kids[p[0]], p[1..])
  {
  }

  /** Marking every known directory a change touched keeps the rows honest. */
  lemma MarkedIsHonest(hash: string -> string, t: Node, t': Node, touched: set<Id>, c: Cache, ids: set<Id>)
    requires Honest(hash, t, c) && Touches(t, t', touched, c) && touched * (c.known + {ROOT_ID}) <= ids
    ensures Honest(hash, t', Dirty(c, ids * (c.known + {ROOT_ID})))
  {
    MarkedChangeStaysHonest(hash, t, t', touched + ids, c);
    assert (touched + ids) * (c.known + {ROOT_ID}) == ids * (c.known + {ROOT_ID});
  }

  lemma {:induction false} ChangeIsHonest(hash: string -> string, t: Node, p: Path, kids: map<Name, Node>, c: Cache,
          unread: set<Id>,
                       marks: bool, bumps: bool)
    requires Honest(hash, t, c) && IsDir(t, p) && Plausible(t, kids, c) && t.id == ROOT_ID
    ensures var t' := Edit(t, p, kids);
            var c' := Invalidated(t', p, c, unread, marks, bumps);
            && (Repairs(t, p, c, unread, marks, bumps) ==> Honest(hash, t', c'))
            && (Shows(hash, t, t', p) ==>
                  (Honest(hash, t', c') <==> (!marks && bumps) || NoneLeft(t, p, c, unread, marks)))
  {
    var t' := Edit(t, p, kids);
    EditIsTouch(t, p, kids, c);
    EditChain(t, p, kids);
    BumpIsHonest(hash, t, t', c);
    var ids := if marks then Marks(t', p, c.known - unread) else {};
    assert ids <= c.known + {ROOT_ID};
    assert Dirty(c, {}) == c;
    if marks && Repairs(t, p, c, unread, marks, bumps) {
      MarkedIsHonest(hash, t, t', Chain(t, p), c, ids);
      assert ids * (c.known + {ROOT_ID}) == ids;
    }
    if Shows(hash, t, t', p) {
      EditHonestExactlyWhen(hash, t, p, kids, c, ids);
    }
  }

  lemma {:induction false} MoveIsHonest(hash: string -> string, t: Node, src: Path, n: Name, dst: Path, m: Name,
          c: Cache, unread: set<Id>,
                     marks: (bool, bool), bumps: (bool, bool))
    requires Honest(hash, t, c) && Movable(t, src, n, dst, m) && t.id == ROOT_ID
    ensures var t' := Move(t, src, n, dst, m);
            var c1 := Invalidated(t', src, c, unread, marks.0, bumps.0);
            FellBack(marks, bumps) || (marks == (true, true) && BothRead(t', src, dst, c, unread)) ==>
              Honest(hash, t', Invalidated(t', dst, c1, unread, marks.1, bumps.1))
  {
    var t' := Move(t, src, n, dst, m);
    MoveIsTouch(t, src, n, dst, m, c);
    BumpIsHonest(hash, t, t', c);
    var a, b := Marks(t', src, c.known - unread), Marks(t', dst, c.known - unread);
    if marks == (true, true) && BothRead(t', src, dst, c, unread) {
      MarkedIsHonest(hash, t, t', Chain(t', src) + Chain(t', dst), c, a + b);
      assert (a + b) * (c.known + {ROOT_ID}) == a + b;
      DirtyTwice(c, a, b);
    }
  }

  lemma MoveIsHonestExactlyWhen(hash: string -> string, t: Node, src: Path, n: Name, dst: Path, m: Name, c: Cache,
          unread: set<Id>, marks: (bool, bool), bumps: (bool, bool))
    requires Honest(hash, t, c) && Movable(t, src, n, dst, m) && t.id == ROOT_ID
    requires MoveShows(hash, t, Move(t, src, n, dst, m), src, dst)
    ensures var t' := Move(t, src, n, dst, m);
            var c1 := Invalidated(t', src, c, unread, marks.0, bumps.0);
            Honest(hash, t', Invalidated(t', dst, c1, unread, marks.1, bumps.1)) <==>
              FellBack(marks, bumps) || NoneLeftOfTwo(t', src, dst, c, unread, marks)
  {
    var t' := Move(t, src, n, dst, m);
    MoveIsHonest(hash, t, src, n, dst, m, c, unread, marks, bumps);
    if !FellBack(marks, bumps) {
      var a, b := Landed(t', src, c, unread, marks.0), Landed(t', dst, c, unread, marks.1);
      DirtyTwice(c, a, b);
      assert Dirty(c, {}) == c && Dirty(Dirty(c, a), {}) == Dirty(c, a);
      MoveHonestExactlyWhen(hash, t, src, n, dst, m, c, a + b);
    }
  }

  lemma DirtyTwice(c: Cache, a: set<Id>, b: set<Id>)
    ensures Dirty(Dirty(c, a), b) == Dirty(c, a + b)
  {
    var x, y := Dirty(Dirty(c, a), b), Dirty(c, a + b);
    assert x.rows.Keys == y.rows.Keys;
    forall id | id in x.rows ensures x.rows[id] == y.rows[id] {}
  }
}
