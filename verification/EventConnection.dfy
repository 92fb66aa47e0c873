/** The connection as the object that holds the maps (files/changes.go). */
module EventConnection {
  import opened Octets
  import opened Ordering
  import opened ChangeChannel

  /** What a path names for this user, or nothing when it cannot be read. */
  type Resolver = string -> Option<Target>

  class EventConn {
    var subs: map<string, Target>
    var pending: map<string, int>
    /** The pins this connection holds in the watcher. */
    ghost var pins: multiset<Pin>

    ghost predicate Valid()
      reads this
    {
      pending.Keys <= subs.Keys && |subs| <= MAX_SUBSCRIPTIONS
    }

    /** The pins held are exactly those of the recorded targets. */
    ghost predicate Balanced()
      reads this
    {
      pins == Pins(subs)
    }

    constructor ()
      ensures Valid() && Balanced() && subs == map[] && pending == map[] && pins == multiset{}
    {
      subs, pending, pins := map[], map[], multiset{};
      new;
      NoPins();
    }

    /** `Subscribe` and `Unsubscribe` of the watcher. */
    ghost method Pin(raw: string, t: Target)
      modifies `pins
      ensures pins == old(pins) + multiset{(raw, t)}
    {
      pins := pins + multiset{(raw, t)};
    }

    ghost method Unpin(raw: string, t: Target)
      modifies `pins
      ensures pins == old(pins) - multiset{(raw, t)}
    {
      pins := pins - multiset{(raw, t)};
    }

    ghost predicate Agrees(resolve: Resolver)
      reads this
    {
      forall raw :: raw in subs && resolve(raw).Some? ==> subs[raw] == resolve(raw).value
    }

    /**
     A frame's paths, one lock region each; an unreadable one is skipped, and so is one past the
     bound. The ledger stays balanced when every path held resolves to what it did before.
     */
    method Subscribe(paths: seq<string>, resolve: Resolver)
      requires Valid()
      modifies this
      ensures Valid() && pending == old(pending)
      ensures forall raw :: raw in old(subs) ==> raw in subs
      ensures forall raw :: raw in subs ==>
                (raw in old(subs) && subs[raw] == old(subs)[raw]) || (raw in paths && resolve(raw) == Some(subs[raw]))
      ensures forall raw :: raw in paths && resolve(raw).Some? ==>
                if raw in subs then subs[raw] == resolve(raw).value else |subs| == MAX_SUBSCRIPTIONS
      ensures old(Balanced() && Agrees(resolve)) ==> Balanced()
    {
      for i := 0 to |paths|
        invariant Valid() && pending == old(pending)
        invariant forall raw :: raw in old(subs) ==> raw in subs
        invariant forall raw :: raw in subs ==>
                    (raw in old(subs) && subs[raw] == old(subs)[raw])
                        || (raw in paths && resolve(raw) == Some(subs[raw]))
        invariant forall raw :: raw in paths[..i] && resolve(raw).Some? ==>
                    if raw in subs then subs[raw] == resolve(raw).value else |subs| == MAX_SUBSCRIPTIONS
        invariant old(Balanced() && Agrees(resolve)) ==> Balanced() && Agrees(resolve)
      {
        assert paths[..i + 1] == paths[..i] + [paths[i]];
        var target := resolve(paths[i]);
        if target.Some? {
          SubscribeOne(paths[i], target.value);
        }
      }
      assert paths[..|paths|] == paths;
    }

    /** One path that resolved: a lock region, then the watcher's pin if the path is new. */
    method SubscribeOne(raw: string, target: Target)
      requires Valid()
      modifies this
      ensures Valid() && pending == old(pending)
      ensures subs == if raw !in old(subs) && |old(subs)| >= MAX_SUBSCRIPTIONS then old(subs)
          else old(subs)[raw := target]
      ensures old(Balanced()) && (raw in old(subs) ==> old(subs)[raw] == target) ==> Balanced()
    {
      var already := raw in subs;
      if !already && |subs| >= MAX_SUBSCRIPTIONS {
        return;
      }
      ghost var was := subs;
      subs := subs[raw := target];
      if already {
        assert subs.Keys == was.Keys && |subs.Keys| == |subs| && |was.Keys| == |was|;
        assert was[raw] == target ==> subs == was;
        return;
      }
      Grown(was, raw, target);
      Pin(raw, target);
    }

    /** The paths are forgotten and their pins returned, whatever they would resolve to now. */
    method Unsubscribe(paths: seq<string>)
      requires Valid()
      modifies this
      ensures Valid() && subs == old(subs) - Elements(paths) && pending == old(pending) - Elements(paths)
      ensures old(Balanced()) ==> Balanced()
    {
      assert old(subs) - {} == old(subs) && old(pending) - {} == old(pending);
      for i := 0 to |paths|
        invariant Valid() && subs == old(subs) - Elements(paths[..i]) && pending == old(pending) - Elements(paths[..i])
        invariant old(Balanced()) ==> Balanced()
      {
        assert Elements(paths[..i + 1]) == Elements(paths[..i]) + {paths[i]};
        MinusMore(old(subs), Elements(paths[..i]), paths[i]);
        MinusMore(old(pending), Elements(paths[..i]), paths[i]);
        UnsubscribeOne(paths[i]);
      }
      assert paths[..|paths|] == paths;
    }

    method UnsubscribeOne(raw: string)
      requires Valid()
      modifies this
      ensures Valid() && subs == old(subs) - {raw} && pending == old(pending) - {raw}
      ensures old(Balanced()) ==> Balanced()
    {
      if raw in subs {
        Shrunk(subs, raw);
        Unpin(raw, subs[raw]);
      } else {
        assert subs - {raw} == subs;
      }
      subs, pending := subs - {raw}, pending - {raw};
    }

    /** Everything is given up at once, then every pin returned. */
    method ReleaseAll()
      requires Valid()
      modifies this
      ensures Valid() && subs == map[] && pending == map[]
      ensures old(Balanced()) ==> Balanced() && pins == multiset{}
    {
      var held := subs;
      subs, pending := map[], map[];
      while held != map[]
        invariant old(Balanced()) ==> pins == Pins(held)
        invariant subs == map[] && pending == map[]
        decreases |held|
      {
        var raw :| raw in held;
        Shrunk(held, raw);
        Unpin(raw, held[raw]);
        held := held - {raw};
      }
      NoPins();
    }

    /** A change, noted against every path it matches, in whatever order the map is walked. */
    method Record(ev: Event, now: int)
      requires Valid()
      modifies `pending
      ensures Valid() && pending == Recorded(subs, old(pending), ev, now)
      ensures forall raw ::
                raw in pending <==>
                  raw in old(pending)
                  || (raw in subs && subs[raw].share == ev.share && (ev.all || subs[raw].dir == ev.dir))
    {
      var todo := subs.Keys;
      ghost var was := pending;
      while todo != {}
        invariant todo <= subs.Keys && PartlyRecorded(subs, was, pending, ev, now, todo)
        decreases |todo|
      {
        var raw :| raw in todo;
        todo := todo - {raw};
        if subs[raw].share != ev.share || (!ev.all && subs[raw].dir != ev.dir) {
          continue;
        }
        if raw !in pending {
          pending := pending[raw := now];
        }
      }
      AllRecorded(subs, was, pending, ev, now);
    }

    /** The paths whose window has elapsed, each once, no longer pending. */
    method Due(now: int) returns (ready: seq<string>)
      requires Valid()
      modifies `pending
      ensures Valid() && pending == old(pending) - Ready(old(pending), now)
      ensures Distinct(ready) && Elements(ready) == Ready(old(pending), now)
    {
      ready := [];
      var todo := pending.Keys;
      ghost var taken: set<string> := {};
      assert pending - {} == pending;
      while todo != {}
        invariant todo <= old(pending).Keys && Distinct(ready) && Elements(ready) == taken && taken !! todo
        invariant forall raw :: raw in taken <==> raw in Ready(old(pending), now) && raw !in todo
        invariant pending == old(pending) - taken
        decreases |todo|
      {
        var raw :| raw in todo;
        todo := todo - {raw};
        assert pending[raw] == old(pending)[raw];
        if now - pending[raw] >= EVENT_DEBOUNCE {
          AppendNew(ready, raw);
          MinusMore(old(pending), taken, raw);
          ready := ready + [raw];
          pending := pending - {raw};
          taken := taken + {raw};
        }
      }
      assert taken == Ready(old(pending), now);
    }

    /**
     One frame for each elapsed path still readable; the others are dropped, pin included. `socket`
     says how many frames the socket still takes; the first failure ends the writer.
     */
    method Flush(now: int, resolve: Resolver, socket: nat) returns (sent: seq<string>, ok: bool)
      requires Valid()
      modifies this
      ensures Valid() && Distinct(sent) && |sent| <= socket && (old(Balanced()) ==> Balanced())
      ensures forall raw :: raw in sent ==> raw in Ready(old(pending), now) && resolve(raw).Some?
      ensures pending == old(pending) - Ready(old(pending), now)
      ensures ok ==> forall raw :: raw in Ready(old(pending), now) ==>
          if resolve(raw).Some? then raw in sent else raw !in subs
      ensures forall raw :: raw in old(subs) && raw !in subs ==> raw in Ready(old(pending), now) && resolve(raw).None?
      ensures forall raw :: raw in subs ==> raw in old(subs) && subs[raw] == old(subs)[raw]
    {
      ghost var elapsed := Ready(pending, now);
      var ready := Due(now);
      sent := [];
      ghost var done: set<string> := {};
      for i := 0 to |ready|
        invariant Valid() && done == Elements(ready[..i]) && |sent| <= socket && (old(Balanced()) ==> Balanced())
        invariant pending == old(pending) - elapsed
        invariant Distinct(sent) && Flushed(old(subs), subs, done, sent, resolve)
      {
        var raw := ready[i];
        NextReady(ready, i);
        if resolve(raw).None? {
          FlushDrops(old(subs), subs, done, sent, resolve, raw);
          UnsubscribeOne(raw);
          MinusGone(old(pending), elapsed, raw);
        } else if |sent| == socket {
          return sent, false;
        } else {
          FlushSends(old(subs), subs, done, sent, resolve, raw);
          sent := sent + [raw];
        }
        done := done + {raw};
      }
      assert ready[..|ready|] == ready;
      return sent, true;
    }
  }

  /** Of the paths done, the readable ones were sent and the others dropped; nothing else changed. */
  ghost predicate Flushed(was: map<string, Target>, subs: map<string, Target>, done: set<string>, sent: seq<string>,
                          resolve: Resolver)
  {
    && (forall raw :: raw in sent ==> raw in done && resolve(raw).Some?)
    && (forall raw :: raw in done ==> if resolve(raw).Some? then raw in sent else raw !in subs)
    && (forall raw :: raw in was && raw !in subs ==> raw in done && resolve(raw).None?)
    && (forall raw :: raw in subs ==> raw in was && subs[raw] == was[raw])
  }

  lemma FlushDrops(was: map<string, Target>, subs: map<string, Target>, done: set<string>, sent: seq<string>,
                   resolve: Resolver, raw: string)
    requires Flushed(was, subs, done, sent, resolve) && resolve(raw).None?
    ensures Flushed(was, subs - {raw}, done + {raw}, sent, resolve)
  {
  }

  lemma FlushSends(was: map<string, Target>, subs: map<string, Target>, done: set<string>, sent: seq<string>,
                   resolve: Resolver, raw: string)
    requires Flushed(was, subs, done, sent, resolve) && resolve(raw).Some?
    ensures Flushed(was, subs, done + {raw}, sent + [raw], resolve)
  {
  }

  lemma NextReady(ready: seq<string>, i: nat)
    requires i < |ready| && Distinct(ready)
    ensures Elements(ready[..i + 1]) == Elements(ready[..i]) + {ready[i]} && ready[i] !in Elements(ready[..i])
    ensures Elements(ready[..i + 1]) <= Elements(ready)
  {
    assert ready[..i + 1] == ready[..i] + [ready[i]];
  }

  lemma AppendNew(ready: seq<string>, raw: string)
    requires Distinct(ready) && raw !in Elements(ready)
    ensures Distinct(ready + [raw]) && Elements(ready + [raw]) == Elements(ready) + {raw}
  {
  }

  lemma MinusMore<V>(m: map<string, V>, gone: set<string>, raw: string)
    ensures m - gone - {raw} == m - (gone + {raw})
  {
  }

  lemma MinusGone<V>(m: map<string, V>, gone: set<string>, raw: string)
    requires raw in gone
    ensures m - gone - {raw} == m - gone
  {
  }

  /** The pending windows when only the paths of `todo` are still to be looked at. */
  ghost predicate PartlyRecorded(subs: map<string, Target>, was: map<string, int>, pending: map<string, int>,
          ev: Event, now: int, todo: set<string>)
  {
    && pending.Keys <= subs.Keys
    && (forall raw :: raw in was ==> raw in pending && pending[raw] == was[raw])
    && (forall raw :: raw in pending && raw !in was ==> Matches(subs[raw], ev) && pending[raw] == now)
    && (forall raw :: raw in subs && raw !in todo && Matches(subs[raw], ev) ==> raw in pending)
  }

  lemma AllRecorded(subs: map<string, Target>, was: map<string, int>, pending: map<string, int>, ev: Event, now: int)
    requires PartlyRecorded(subs, was, pending, ev, now, {})
    ensures pending == Recorded(subs, was, ev, now)
  {
  }

  lemma Grown(subs: map<string, Target>, raw: string, t: Target)
    requires raw !in subs
    ensures Pins(subs[raw := t]) == Pins(subs) + multiset{(raw, t)} && |subs[raw := t]| == |subs| + 1
  {
    PinsAdded(subs, raw, t);
    assert subs[raw := t].Keys == subs.Keys + {raw};
    assert |subs.Keys| == |subs| && |subs[raw := t].Keys| == |subs[raw := t]|;
  }

  lemma Shrunk(subs: map<string, Target>, raw: string)
    requires raw in subs
    ensures Pins(subs - {raw}) == Pins(subs) - multiset{(raw, subs[raw])} && (raw, subs[raw]) in Pins(subs)
    ensures |subs - {raw}| == |subs| - 1
  {
    PinsRemoved(subs, raw);
    Grown(subs - {raw}, raw, subs[raw]);
    assert (subs - {raw})[raw := subs[raw]] == subs;
  }
}
