/** What a directory's etag is a hash of, and what it tells apart (files/aggregate.go, files/etag.go). */
module Etags {
  import opened Octets
  import opened Ordering
  import opened Aggregates

  /** An entry's token: a file's own, or the hash of what is written for a directory. */
  ghost function Token(hash: string -> string, k: Node): string
    decreases k, 1, 0
  {
    match k
    case File(etag, _) => etag
    case Dir(_, kids) => hash(Written(hash, k, SortedNames(kids.Keys)))
  }

  /** Every name followed by its entry's token. */
  ghost function Written(hash: string -> string, d: Node, names: seq<Name>): string
    requires d.Dir? && forall n :: n in names ==> n in d.kids
    decreases d, 0, |names|
  {
    if names == [] then "" else names[0] + Token(hash, d.kids[names[0]]) + Written(hash, d, names[1..])
  }

  lemma {:induction false} WrittenLast(hash: string -> string, d: Node, front: seq<Name>, n: Name)
    requires d.Dir? && n in d.kids && forall x :: x in front ==> x in d.kids
    ensures Written(hash, d, front + [n]) == Written(hash, d, front) + n + Token(hash, d.kids[n])
    decreases |front|
  {
    var names := front + [n];
    if front == [] {
      assert names[1..] == [];
    } else {
      assert names[1..] == front[1..] + [n];
      WrittenLast(hash, d, front[1..], n);
      var x, t := front[0] + Token(hash, d.kids[front[0]]), Token(hash, d.kids[n]);
      Associates(x, Written(hash, d, front[1..]), n);
      Associates(x, Written(hash, d, front[1..]) + n, t);
    }
  }

  lemma {:induction false} FoldIsWritten(hash: string -> string, d: Node, names: seq<Name>)
    requires d.Dir? && forall n :: n in names ==> n in d.kids
    ensures Fold(hash, d, names).input == Written(hash, d, names)
    decreases d, 1, |names|
  {
    if names != [] {
      var front, n := names[..|names| - 1], names[|names| - 1];
      FoldIsWritten(hash, d, front);
      assert front + [n] == names;
      FoldLast(hash, d, front, n);
      WrittenLast(hash, d, front, n);
      EntryIsToken(hash, d.kids[n]);
    }
  }

  lemma EntryIsToken(hash: string -> string, k: Node)
    ensures Entry(hash, k).0.etag == Token(hash, k)
    decreases k, 2, 0
  {
    if k.Dir? {
      FoldIsWritten(hash, k, SortedNames(k.kids.Keys));
    }
  }

  /** The etag of a directory is the hash of its sorted names, each followed by its entry's token. */
  lemma EtagIsHash(hash: string -> string, d: Node)
    requires d.Dir?
    ensures Rollup(hash, d).etag == hash(Written(hash, d, SortedNames(d.kids.Keys)))
  {
    EntryIsToken(hash, d);
  }

  // ---- What an etag tells apart, the hash being free of collisions.

  ghost predicate Injective(hash: string -> string) {
    forall s, t :: hash(s) == hash(t) ==> s == t
  }

  /** The two directories have the same names, and the same token for each but one. */
  ghost predicate DifferAt(hash: string -> string, d: Node, e: Node, n: Name) {
    && d.Dir? && e.Dir? && d.kids.Keys == e.kids.Keys && n in d.kids
    && Token(hash, d.kids[n]) != Token(hash, e.kids[n])
    && forall x :: x in d.kids && x != n ==> Token(hash, d.kids[x]) == Token(hash, e.kids[x])
  }

  lemma {:induction false} WrittenElsewhere(hash: string -> string, d: Node, e: Node, n: Name, names: seq<Name>)
    requires DifferAt(hash, d, e, n) && (forall x :: x in names ==> x in d.kids) && n !in names
    ensures Written(hash, d, names) == Written(hash, e, names)
    decreases |names|
  {
    if names != [] {
      WrittenElsewhere(hash, d, e, n, names[1..]);
    }
  }

  lemma FrontCancels(x: string, y: string, z: string)
    requires x + y == x + z
    ensures y == z
  {
    assert (x + y)[|x|..] == y && (x + z)[|x|..] == z;
  }

  lemma BackCancels(x: string, y: string, z: string)
    requires x + z == y + z
    ensures x == y
  {
    assert |x| == |y|;
    assert (x + z)[..|x|] == x && (y + z)[..|y|] == y;
  }

  lemma {:induction false} WrittenDiffers(hash: string -> string, d: Node, e: Node, n: Name, names: seq<Name>)
    requires DifferAt(hash, d, e, n) && (forall x :: x in names ==> x in d.kids) && Distinct(names) && n in names
    ensures Written(hash, d, names) != Written(hash, e, names)
    decreases |names|
  {
    var x, rest := names[0], names[1..];
    var a, b := Token(hash, d.kids[x]), Token(hash, e.kids[x]);
    if Written(hash, d, names) == Written(hash, e, names) {
      if x == n {
        WrittenElsewhere(hash, d, e, n, rest);
        BackCancels(x + a, x + b, Written(hash, d, rest));
        FrontCancels(x, a, b);
      } else {
        WrittenDiffers(hash, d, e, n, rest);
        FrontCancels(x + a, Written(hash, d, rest), Written(hash, e, rest));
      }
    }
  }

  lemma OneTokenShows(hash: string -> string, d: Node, e: Node, n: Name)
    requires Injective(hash) && DifferAt(hash, d, e, n)
    ensures Token(hash, d) != Token(hash, e) && Rollup(hash, d).etag != Rollup(hash, e).etag
  {
    WrittenDiffers(hash, d, e, n, SortedNames(d.kids.Keys));
    EtagIsHash(hash, d);
    EtagIsHash(hash, e);
  }

  lemma {:induction false} TopTells(hash: string -> string, t: Node, p: Path, kids: map<Name, Node>)
    requires Injective(hash) && IsDir(t, p)
    requires Token(hash, Dir(Resolve(t, p).value.id, kids)) != Token(hash, Resolve(t, p).value)
    ensures Token(hash, Edit(t, p, kids)) != Token(hash, t)
    decreases |p|
  {
    if p != [] {
      TopTells(hash, t.kids[p[0]], p[1..], kids);
      var t' := Edit(t, p, kids);
      assert t'.kids == t.kids[p[0] := Edit(t.kids[p[0]], p[1..], kids)];
      assert DifferAt(hash, t', t, p[0]);
      OneTokenShows(hash, t', t, p[0]);
    }
  }

  /** The directory at `q` has another etag in each tree. */
  ghost predicate EtagDiffers(hash: string -> string, t: Node, t': Node, q: Path) {
    IsDir(t, q) && IsDir(t', q) && Rollup(hash, Resolve(t, q).value).etag != Rollup(hash, Resolve(t', q).value).etag
  }

  lemma {:induction false} PrefixTells(hash: string -> string, t: Node, p: Path, kids: map<Name, Node>, i: nat)
    requires Injective(hash) && IsDir(t, p) && i <= |p|
    requires Token(hash, Dir(Resolve(t, p).value.id, kids)) != Token(hash, Resolve(t, p).value)
    ensures EtagDiffers(hash, t, Edit(t, p, kids), p[..i])
    decreases |p|
  {
    if i == 0 {
      TopTells(hash, t, p, kids);
      HereTells(hash, t, Edit(t, p, kids));
      assert p[..0] == [];
    } else {
      PrefixTells(hash, t.kids[p[0]], p[1..], kids, i - 1);
      assert p[..i][1..] == p[1..][..i - 1];
      BelowTells(hash, t, Edit(t, p, kids), p[..i]);
    }
  }

  lemma HereTells(hash: string -> string, t: Node, t': Node)
    requires t.Dir? && t'.Dir? && Token(hash, t) != Token(hash, t')
    ensures EtagDiffers(hash, t, t', [])
  {
    EntryIsToken(hash, t);
    EntryIsToken(hash, t');
  }

  lemma BelowTells(hash: string -> string, t: Node, t': Node, q: Path)
    requires t.Dir? && t'.Dir? && q != [] && q[0] in t.kids && q[0] in t'.kids
    requires EtagDiffers(hash, t.kids[q[0]], t'.kids[q[0]], q[1..])
    ensures EtagDiffers(hash, t, t', q)
  {
  }

  /** A changed file changes the etag of its directory and of every directory above it. */
  lemma FileChangeShows(hash: string -> string, t: Node, p: Path, n: Name, etag: string, size: uint64)
    requires Injective(hash) && IsDir(t, p)
    requires var d := Resolve(t, p).value; n in d.kids && d.kids[n].File? && d.kids[n].etag != etag
    ensures var t' := Edit(t, p, Resolve(t, p).value.kids[n := File(etag, size)]);
            && (forall i :: 0 <= i <= |p| ==> EtagDiffers(hash, t, t', p[..i]))
            && Shows(hash, t, t', p)
  {
    var d := Resolve(t, p).value;
    var kids := d.kids[n := File(etag, size)];
    var t' := Edit(t, p, kids);
    assert DifferAt(hash, Dir(d.id, kids), d, n);
    OneTokenShows(hash, Dir(d.id, kids), d, n);
    forall i | 0 <= i <= |p| ensures EtagDiffers(hash, t, t', p[..i]) && Differs(hash, t, t', p[..i]) {
      PrefixTells(hash, t, p, kids, i);
    }
  }

  // ---- Names and tokens are written without a mark between them.

  ghost predicate TokensOfLength(hash: string -> string, d: Node, len: nat)
    requires d.Dir?
  {
    forall n :: n in d.kids ==> |Token(hash, d.kids[n])| == len
  }

  ghost predicate SameTokens(hash: string -> string, d: Node, e: Node, names: seq<Name>)
    requires d.Dir? && e.Dir? && forall n :: n in names ==> n in d.kids && n in e.kids
  {
    forall n :: n in names ==> Token(hash, d.kids[n]) == Token(hash, e.kids[n])
  }

  lemma CutAt(a: string, x: string, b: string, y: string)
    requires |a| == |b|
    ensures a + x == b + y <==> a == b && x == y
  {
    assert (a + x)[..|a|] == a && (b + y)[..|b|] == b && (a + x)[|a|..] == x && (b + y)[|b|..] == y;
  }

  lemma {:induction false} WrittenTells(hash: string -> string, d: Node, e: Node, names: seq<Name>, len: nat)
    requires d.Dir? && e.Dir? && TokensOfLength(hash, d, len) && TokensOfLength(hash, e, len)
    requires forall n :: n in names ==> n in d.kids && n in e.kids
    ensures Written(hash, d, names) == Written(hash, e, names) <==> SameTokens(hash, d, e, names)
    decreases |names|
  {
    if names != [] {
      var n, rest := names[0], names[1..];
      var a, b := Token(hash, d.kids[n]), Token(hash, e.kids[n]);
      WrittenTells(hash, d, e, rest, len);
      CutAt(n + a, Written(hash, d, rest), n + b, Written(hash, e, rest));
      CutAt(n, a, n, b);
      assert forall x :: x in names <==> x == n || x in rest;
    }
  }

  /** With tokens of one length, directories of the same names share an etag exactly when every entry is the same. */
  lemma SameNamesTell(hash: string -> string, d: Node, e: Node, len: nat)
    requires Injective(hash) && d.Dir? && e.Dir? && d.kids.Keys == e.kids.Keys
    requires TokensOfLength(hash, d, len) && TokensOfLength(hash, e, len)
    ensures Rollup(hash, d).etag == Rollup(hash, e).etag <==>
              forall n :: n in d.kids ==> Token(hash, d.kids[n]) == Token(hash, e.kids[n])
  {
    var names := SortedNames(d.kids.Keys);
    EtagIsHash(hash, d);
    EtagIsHash(hash, e);
    WrittenTells(hash, d, e, names, len);
    assert forall n :: n in d.kids <==> n in Elements(names);
  }

  lemma TwoSorted(a: Name, b: Name)
    requires StrLess(a, b)
    ensures SortedNames({a, b}) == [a, b]
  {
    StrLessIrreflexive(a);
    assert Enumerates([a, b], {a, b});
    ReadOrderIsIrrelevant([a, b], {a, b});
    assert Sort(StrLess, [a]) == [a] by {
      assert [a][..0] == [];
    }
    assert [a, b][..1] == [a];
    StrLessAsymmetric(a, b);
  }

  lemma StrLessAsymmetric(a: string, b: string)
    requires StrLess(a, b)
    ensures !StrLess(b, a)
  {
    if StrLess(b, a) {
      StrLessTransitive(a, b, a);
      StrLessIrreflexive(a);
    }
  }

  /** Of different names it is not so: a name may hold another's token. */
  lemma NamesMayBlur(hash: string -> string, a: Name, s: string, b: Name, t: string, m: uint64, n: uint64, id: Id)
    requires StrLess(a, b)
    ensures Rollup(hash, Dir(id, map[a := File(s, m), b := File(t, n)])).etag
         == Rollup(hash, Dir(id, map[a + s + b := File(t, n)])).etag
  {
    StrLessIrreflexive(a);
    var d, e := Dir(id, map[a := File(s, m), b := File(t, n)]), Dir(id, map[a + s + b := File(t, n)]);
    TwoSorted(a, b);
    assert d.kids.Keys == {a, b} && e.kids.Keys == {a + s + b};
    OneSorted(a + s + b);
    EtagIsHash(hash, d);
    EtagIsHash(hash, e);
    assert [a, b][1..] == [b] && [b][1..] == [] && [a + s + b][1..] == [];
    OneWritten(hash, d, b, t);
    OneWritten(hash, e, a + s + b, t);
    assert Written(hash, d, [a, b]) == a + s + Written(hash, d, [b]);
    assert a + s + (b + t) == a + s + b + t;
  }

  lemma OneWritten(hash: string -> string, d: Node, n: Name, etag: string)
    requires d.Dir? && n in d.kids && d.kids[n].File? && d.kids[n].etag == etag
    ensures Written(hash, d, [n]) == n + etag
  {
    assert [n][1..] == [];
    assert n + etag + "" == n + etag;
  }

  lemma OneSorted(a: Name)
    ensures SortedNames({a}) == [a]
  {
    assert Enumerates([a], {a});
    ReadOrderIsIrrelevant([a], {a});
    assert [a][..0] == [];
  }
}
