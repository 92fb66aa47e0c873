/** Two races of rollup walks with changes: the hypothesis of `RollupWalks.RollupTheorem` is needed. */
module RollupRaces {
  import opened Octets
  import opened Aggregates
  import opened RollupWalks

  function Bare(id: Id): Node {
    Dir(id, map[])
  }

  function WithFile(id: Id): Node {
    Dir(id, map["f" := File("", 0)])
  }

  lemma BareIsEmpty(hash: string -> string, id: Id)
    ensures SortedNames(Bare(id).kids.Keys) == [] && UniqueIds(Bare(id)) && Ids(Bare(id)) == {id}
    ensures Rollup(hash, Bare(id)).rcount == 0
  {
    assert Bare(id).kids.Keys == {};
    SortedNamesAre([], {});
    RollupCounts(hash, Bare(id));
  }

  lemma WithFileCounts(hash: string -> string, id: Id)
    ensures UniqueIds(WithFile(id)) && Ids(WithFile(id)) == {id} && Rollup(hash, WithFile(id)).rcount == 1
    ensures forall e :: Within(e, WithFile(id)) && e.Dir? ==> e.id == id
  {
    var d := WithFile(id);
    assert d.kids.Keys == {"f"};
    SortedNamesAre(["f"], {"f"});
    FoldLast(hash, d, [], "f");
    assert [] + ["f"] == ["f"];
    assert d.kids["f"] == File("", 0);
    assert Ids(d.kids["f"]) == {};
    forall e | Within(e, WithFile(id)) && e.Dir? ensures e.id == id {
      WithinHasId(e, WithFile(id));
    }
  }

  /** One walk, alone. */
  function Lone(t: Node, c: Cache, owed: set<Id>, stack: seq<Frame>): State {
    State(t, c, owed, map[0 := Walk(0, stack)])
  }

  lemma LoneOpens(hash: string -> string, t: Node, c: Cache, owed: set<Id>, p: Path)
    requires c.gen == 0 && IsDir(t, p)
    ensures var s, id := State(t, c, owed, map[]), Resolve(t, p).value.id;
            && Enabled(s, Begin(0)) && Next(hash, s, Begin(0)) == Lone(t, c, owed, [])
            && Enabled(Lone(t, c, owed, []), Open(0, p))
            && Next(hash, Lone(t, c, owed, []), Open(0, p)) == Lone(t, Learn(c, id), owed, [Fresh(p, id)])
  {
    var id := Resolve(t, p).value.id;
    assert map[0 := Walk(0, [])][0 := Walk(0, [Fresh(p, id)])] == map[0 := Walk(0, [Fresh(p, id)])];
  }

  lemma LoneReads(hash: string -> string, t: Node, c: Cache, owed: set<Id>, f: Frame)
    requires f.rest.None? && IsDir(t, f.path)
    ensures var names := SortedNames(Resolve(t, f.path).value.kids.Keys);
            && Enabled(Lone(t, c, owed, [f]), Read(0))
            && Next(hash, Lone(t, c, owed, [f]), Read(0))
                 == Lone(t, c, owed, [f.(rest := Some(names), sums := NOTHING)])
  {
    var f' := f.(rest := Some(SortedNames(Resolve(t, f.path).value.kids.Keys)), sums := NOTHING);
    assert [f'] + [f][1..] == [f'];
    assert map[0 := Walk(0, [f])][0 := Walk(0, [f'])] == map[0 := Walk(0, [f'])];
  }

  lemma LoneFinishes(hash: string -> string, t: Node, c: Cache, owed: set<Id>, f: Frame)
    requires f.rest == Some([])
    ensures Enabled(Lone(t, c, owed, [f]), Finish(0, true))
    ensures Next(hash, Lone(t, c, owed, [f]), Finish(0, true)) == Lone(t, Put(c, f.id, Total(hash, f), 0), owed, [])
    ensures Enabled(Lone(t, c, owed, []), Abandon(0))
    ensures Next(hash, Lone(t, c, owed, []), Abandon(0)) == State(t, c, owed, map[])
  {
    assert map[0 := Walk(0, [f])][0 := Walk(0, [])] == map[0 := Walk(0, [])];
    assert map[0 := Walk(0, [])] - {0} == map[];
  }

  /** A walk opens an empty directory and reads it. */
  lemma ReadsBare(hash: string -> string, s0: State, t: Node, c: Cache, p: Path, id: Id)
    requires Gets(hash, s0, State(t, c, {}, map[])) && c.gen == 0 && Resolve(t, p) == Some(Bare(id))
    ensures Gets(hash, s0, Lone(t, Learn(c, id), {}, [Fresh(p, id).(rest := Some([]))]))
  {
    var f := Fresh(p, id);
    BareIsEmpty(hash, id);
    LoneOpens(hash, t, c, {}, p);
    GetsThen(hash, s0, State(t, c, {}, map[]), Begin(0), Lone(t, c, {}, []));
    GetsThen(hash, s0, Lone(t, c, {}, []), Open(0, p), Lone(t, Learn(c, id), {}, [f]));
    LoneReads(hash, t, Learn(c, id), {}, f);
    GetsThen(hash, s0, Lone(t, Learn(c, id), {}, [f]), Read(0), Lone(t, Learn(c, id), {}, [f.(rest := Some([]))]));
  }

  /** A marking lands and the finished directory's row is stored after it. */
  lemma MarkedThenStored(hash: string -> string, s0: State, t: Node, c: Cache, owed: set<Id>, f: Frame)
    requires Gets(hash, s0, Lone(t, c, owed, [f])) && owed <= Minted(c) && f.rest == Some([])
    ensures Gets(hash, s0, Lone(t, Put(Dirty(c, owed), f.id, Total(hash, f), 0), {}, []))
  {
    var marked := Dirty(c, owed);
    assert owed - owed == {};
    GetsThen(hash, s0, Lone(t, c, owed, [f]), Mark(owed), Lone(t, marked, {}, [f]));
    LoneFinishes(hash, t, marked, {}, f);
    GetsThen(hash, s0, Lone(t, marked, {}, [f]), Finish(0, true),
        Lone(t, Put(marked, f.id, Total(hash, f), 0), {}, []));
  }

  /** A walk reads a directory, a file appears in it and is marked, and the walk stores what it read. */
  lemma RaceIsReachable(hash: string -> string) returns (s: State)
    ensures Gets(hash, Boot(Bare(ROOT_ID)), s)
    ensures s.owed == {} && s.cache.gen == 0 && TreeOk(s.tree) && !Honest(hash, s.tree, s.cache)
  {
    var t, t', s0 := Bare(ROOT_ID), WithFile(ROOT_ID), Boot(Bare(ROOT_ID));
    BareIsEmpty(hash, ROOT_ID);
    WithFileCounts(hash, ROOT_ID);
    var c := Learn(s0.cache, ROOT_ID);
    var f := Fresh([], ROOT_ID).(rest := Some([]));
    GetsHere(hash, s0);
    ReadsBare(hash, s0, t, s0.cache, [], ROOT_ID);
    LateChange(hash, t, t', c, f);
    var noted := Noted(f, t, t');
    GetsThen(hash, s0, Lone(t, c, {}, [f]), Change(t', {ROOT_ID}), Lone(t', c, {ROOT_ID}, [noted]));
    MarkedThenStored(hash, s0, t', c, {ROOT_ID}, noted);
    s := Lone(t', Put(Dirty(c, {ROOT_ID}), ROOT_ID, Total(hash, noted), 0), {}, []);
    EmptyRowLies(hash, t', s.cache, t');
  }

  lemma LateChange(hash: string -> string, t: Node, t': Node, c: Cache, f: Frame)
    requires t'.Dir? && t'.id == ROOT_ID && UniqueIds(t') && forall e :: Within(e, t') && e.Dir? ==> e.id == ROOT_ID
    ensures Enabled(Lone(t, c, {}, [f]), Change(t', {ROOT_ID}))
    ensures Next(hash, Lone(t, c, {}, [f]), Change(t', {ROOT_ID})) == Lone(t', c, {ROOT_ID}, [Noted(f, t, t')])
  {
    var k := Walk(0, [f]);
    assert NotedAll(k, t, t').stack == [Noted(f, t, t')];
    assert (map w | w in map[0 := k] :: NotedAll(map[0 := k][w], t, t')) == map[0 := Walk(0, [Noted(f, t, t')])];
  }

  /** A clean row that counts no file lies about a directory that holds one. */
  lemma EmptyRowLies(hash: string -> string, t: Node, c: Cache, d: Node)
    requires Within(d, t) && d.Dir? && Rollup(hash, d).rcount == 1
    requires DirEtag(c, d.id).Some? && DirEtag(c, d.id).value.rcount == 0
    ensures !Honest(hash, t, c)
  {
  }

  function Above(d: Node): Node {
    Dir(ROOT_ID, map["a" := d])
  }

  /** A directory `d`, of id 1, as the only entry of the root. */
  lemma AboveIsOk(hash: string -> string, d: Node)
    requires d.Dir? && d.id == 1 && UniqueIds(d) && Ids(d) == {1}
    ensures TreeOk(Above(d)) && Ids(Above(d)) == {ROOT_ID, 1}
    ensures Resolve(Above(d), ["a"]) == Some(d) && SortedNames(Above(d).kids.Keys) == ["a"]
    ensures Rollup(hash, Above(d)).rcount == Rollup(hash, d).rcount
  {
    var t := Above(d);
    assert t.kids.Keys == {"a"} && t.kids["a"] == d;
    SortedNamesAre(["a"], {"a"});
    FoldLast(hash, t, [], "a");
    assert [] + ["a"] == ["a"];
    assert ["a"][1..] == [];
    assert Resolve(t, ["a"]) == Resolve(d, []);
  }

  /** A walk of the root meets the child's row and takes it. */
  lemma TakesTheRow(hash: string -> string, s0: State, d: Node, c: Cache, owed: set<Id>)
    requires d.Dir? && d.id == 1 && UniqueIds(d) && Ids(d) == {1}
    requires c.gen == 0 && DirEtag(c, 1).Some? && 1 in owed && Gets(hash, s0, State(Above(d), c, owed, map[]))
    ensures var f := Frame([], ROOT_ID, Some(["a"]), NOTHING, false);
            Gets(hash, s0, Lone(Above(d), Learn(Learn(c, ROOT_ID), 1), owed, [Took(f, DirEtag(c, 1).value, true)]))
  {
    AboveIsOk(hash, d);
    var t, c1 := Above(d), Learn(c, ROOT_ID);
    var c2 := Learn(c1, 1);
    var f, child := Frame([], ROOT_ID, Some(["a"]), NOTHING, false), Fresh(["a"], 1);
    LoneOpens(hash, t, c, owed, []);
    GetsThen(hash, s0, State(t, c, owed, map[]), Begin(0), Lone(t, c, owed, []));
    GetsThen(hash, s0, Lone(t, c, owed, []), Open(0, []), Lone(t, c1, owed, [Fresh([], ROOT_ID)]));
    LoneReads(hash, t, c1, owed, Fresh([], ROOT_ID));
    GetsThen(hash, s0, Lone(t, c1, owed, [Fresh([], ROOT_ID)]), Read(0), Lone(t, c1, owed, [f]));
    LoneDescends(hash, t, c1, owed, f, d);
    GetsThen(hash, s0, Lone(t, c1, owed, [f]), Visit(0, false), Lone(t, c2, owed, [child, f]));
    LoneHits(hash, t, c2, owed, child, f);
    GetsThen(hash, s0, Lone(t, c2, owed, [child, f]), Hit(0), Lone(t, c2, owed, [Took(f, DirEtag(c, 1).value, true)]));
  }

  lemma LoneDescends(hash: string -> string, t: Node, c: Cache, owed: set<Id>, f: Frame, d: Node)
    requires f.rest == Some(["a"]) && f.path == [] && d.Dir? && Resolve(t, ["a"]) == Some(d)
    ensures Enabled(Lone(t, c, owed, [f]), Visit(0, false))
    ensures Next(hash, Lone(t, c, owed, [f]), Visit(0, false)) == Lone(t, Learn(c, d.id), owed, [Fresh(["a"], d.id), f])
  {
    var stack := [Fresh(["a"], d.id), f];
    assert [] + ["a"] == ["a"];
    assert [Fresh(["a"], d.id)] + [f] == stack;
    assert map[0 := Walk(0, [f])][0 := Walk(0, stack)] == map[0 := Walk(0, stack)];
  }

  lemma LoneHits(hash: string -> string, t: Node, c: Cache, owed: set<Id>, child: Frame, f: Frame)
    requires Waits(f, child.path) && child.rest.None? && DirEtag(c, child.id).Some? && child.id in owed
    ensures Enabled(Lone(t, c, owed, [child, f]), Hit(0))
    ensures Next(hash, Lone(t, c, owed, [child, f]), Hit(0))
              == Lone(t, c, owed, [Took(f, DirEtag(c, child.id).value, true)])
  {
    var stack := [Took(f, DirEtag(c, child.id).value, true)];
    assert stack + [child, f][2..] == stack;
    assert map[0 := Walk(0, [child, f])][0 := Walk(0, stack)] == map[0 := Walk(0, stack)];
  }

  /**
   A walk that begins after a change can store a false row too: it takes the row of a changed
   directory whose marking has not landed yet.
   */
  lemma RowReadBeforeItsMarking(hash: string -> string) returns (s: State)
    ensures Gets(hash, Boot(Above(Bare(1))), s)
    ensures s.owed == {} && s.cache.gen == 0 && TreeOk(s.tree) && !Honest(hash, s.tree, s.cache)
  {
    WithFileCounts(hash, 1);
    AboveIsOk(hash, WithFile(1));
    var t', s0 := Above(WithFile(1)), Boot(Above(Bare(1)));
    var row := RowBeforeChange(hash, s0);
    TakesTheRow(hash, s0, WithFile(1), row, {ROOT_ID, 1});
    var root := Took(Frame([], ROOT_ID, Some(["a"]), NOTHING, false), DirEtag(row, 1).value, true);
    var c := Learn(Learn(row, ROOT_ID), 1);
    MarkedThenStored(hash, s0, t', c, {ROOT_ID, 1}, root);
    s := Lone(t', Put(Dirty(c, {ROOT_ID, 1}), ROOT_ID, Total(hash, root), 0), {}, []);
    EmptyRowLies(hash, t', s.cache, t');
  }

  /** The child is walked and its row stored. */
  lemma RowIsStored(hash: string -> string, s0: State) returns (c: Cache)
    requires s0 == Boot(Above(Bare(1)))
    ensures c.gen == 0 && c.known == {1} && DirEtag(c, 1).Some? && DirEtag(c, 1).value.rcount == 0
    ensures Gets(hash, s0, State(Above(Bare(1)), c, {}, map[]))
  {
    BareIsEmpty(hash, 1);
    AboveIsOk(hash, Bare(1));
    var t, known := Above(Bare(1)), Learn(s0.cache, 1);
    var f := Fresh(["a"], 1).(rest := Some([]));
    GetsHere(hash, s0);
    ReadsBare(hash, s0, t, s0.cache, ["a"], 1);
    LoneFinishes(hash, t, known, {}, f);
    c := Put(known, 1, Total(hash, f), 0);
    GetsThen(hash, s0, Lone(t, known, {}, [f]), Finish(0, true), Lone(t, c, {}, []));
    LoneFinishes(hash, t, c, {}, f);
    GetsThen(hash, s0, Lone(t, c, {}, []), Abandon(0), State(t, c, {}, map[]));
  }

  /** Then a file appears in it, and nothing is marked yet. */
  lemma RowBeforeChange(hash: string -> string, s0: State) returns (c: Cache)
    requires s0 == Boot(Above(Bare(1)))
    ensures c.gen == 0 && DirEtag(c, 1).Some? && DirEtag(c, 1).value.rcount == 0
    ensures Gets(hash, s0, State(Above(WithFile(1)), c, {ROOT_ID, 1}, map[]))
  {
    WithFileCounts(hash, 1);
    AboveIsOk(hash, WithFile(1));
    var t, t' := Above(Bare(1)), Above(WithFile(1));
    c := RowIsStored(hash, s0);
    IdleChange(hash, t, t', c, {ROOT_ID, 1});
    GetsThen(hash, s0, State(t, c, {}, map[]), Change(t', {ROOT_ID, 1}), State(t', c, {ROOT_ID, 1}, map[]));
  }

  lemma {:induction false} IdleChange(hash: string -> string, t: Node, t': Node, c: Cache, touched: set<Id>)
    requires TreeOk(t') && Ids(t') <= touched && touched <= Minted(c)
    ensures Enabled(State(t, c, {}, map[]), Change(t', touched))
    ensures Next(hash, State(t, c, {}, map[]), Change(t', touched)) == State(t', c, touched, map[])
  {
    forall e | Within(e, t') && e.Dir? ensures e.id in touched {
      WithinHasId(e, t');
    }
    var s := State(t, c, {}, map[]);
    assert Next(hash, s, Change(t', touched)).walks.Keys == {};
    assert {} + touched * Minted(c) == touched;
  }
}
