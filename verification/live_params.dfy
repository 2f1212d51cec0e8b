/**
 Which parameters a factory leaves live: the memoised walk of gen_registry.py over
 the helpers a factory's body calls, its cache shared from factory to factory.
 */
module LiveParams {

  /** Each helper's calls, in the order its body's set of them is iterated. */
  type Graph = map<string, seq<string>>

  /** The ids a helper's own body installs setters for. */
  type Setters = string -> set<string>

  type Cache = map<string, set<string>>

  /** A factory's own setters and calls. */
  datatype Body = Body(ids: set<string>, calls: seq<string>)

  // ---- the walk -----------------------------------------------------------------------

  lemma FewerLeft(g: Graph, seen: set<string>, name: string)
    requires name in g && name !in seen
    ensures |g.Keys - (seen + {name})| < |g.Keys - seen|
  {
    assert g.Keys - seen == g.Keys - (seen + {name}) + {name};
  }

  /** from_body()'s loop over the calls, the cache threaded through. */
  function Walk(g: Graph, own: Setters, calls: seq<string>, seen: set<string>, cache: Cache, ids: set<string>)
    : (set<string>, Cache)
    decreases |g.Keys - seen|, |calls|
  {
    if calls == [] then (ids, cache)
    else
      var name := calls[0];
      if name in seen || name !in g then Walk(g, own, calls[1..], seen, cache, ids)
      else if name in cache then Walk(g, own, calls[1..], seen, cache, ids + cache[name])
      else
        FewerLeft(g, seen, name);
        var found := Walk(g, own, g[name], seen + {name}, cache, own(name));
        Walk(g, own, calls[1..], seen, found.1[name := found.0], ids + found.0)
  }

  /** The factories in turn, over one cache. */
  function ReadAll(g: Graph, own: Setters, factories: seq<Body>): (r: (seq<set<string>>, Cache))
    ensures |r.0| == |factories|
  {
    if factories == [] then ([], map[])
    else
      var before := ReadAll(g, own, factories[..|factories| - 1]);
      var factory := factories[|factories| - 1];
      var found := Walk(g, own, factory.calls, {}, before.1, factory.ids);
      (before.0 + [found.0], found.1)
  }

  class Reader {
    const helpers: Graph
    const own: Setters
    var cache: Cache

    constructor (helpers: Graph, own: Setters)
      ensures this.helpers == helpers && this.own == own && cache == map[]
    {
      this.helpers, this.own, cache := helpers, own, map[];
    }

    /** from_body() */
    method FromBody(body: Body, seen: set<string>) returns (ids: set<string>)
      modifies this`cache
      ensures (ids, cache) == Walk(helpers, own, body.calls, seen, old(cache), body.ids)
      decreases |helpers.Keys - seen|
    {
      ids := body.ids;
      for i := 0 to |body.calls|
        invariant Walk(helpers, own, body.calls[i..], seen, cache, ids)
               == Walk(helpers, own, body.calls, seen, old(cache), body.ids)
      {
        var name := body.calls[i];
        assert body.calls[i..][1..] == body.calls[i + 1..];
        if name in seen || name !in helpers { continue; }
        if name !in cache {
          FewerLeft(helpers, seen, name);
          var found := FromBody(Body(own(name), helpers[name]), seen + {name});
          cache := cache[name := found];
        }
        ids := ids + cache[name];
      }
    }

    /** read_custom_live_params() */
    method ReadFactories(factories: seq<Body>) returns (live: seq<set<string>>)
      requires cache == map[]
      modifies this`cache
      ensures live == ReadAll(helpers, own, factories).0
    {
      live := [];
      for i := 0 to |factories|
        invariant (live, cache) == ReadAll(helpers, own, factories[..i])
      {
        assert factories[..i + 1][..i] == factories[..i];
        var ids := FromBody(factories[i], {});
        live := live + [ids];
      }
      assert factories[..|factories|] == factories;
    }
  }

  // ---- reachability ------------------------------------------------------------------------

  ghost predicate Path(g: Graph, p: seq<string>) {
    && p != []
    && (forall i :: 0 <= i < |p| ==> p[i] in g)
    && (forall i :: 0 <= i < |p| - 1 ==> p[i + 1] in g[p[i]])
  }

  ghost predicate Reaches(g: Graph, a: string, b: string) {
    exists p :: Path(g, p) && p[0] == a && p[|p| - 1] == b
  }

  /** The id is set by the body, or by a helper that calls lead to. */
  ghost predicate Live(g: Graph, own: Setters, body: Body, id: string) {
    id in body.ids || exists n, m :: n in body.calls && Reaches(g, n, m) && id in own(m)
  }

  lemma ReachesSelf(g: Graph, a: string)
    requires a in g
    ensures Reaches(g, a, a)
  {
    assert Path(g, [a]);
  }

  lemma ReachesStep(g: Graph, a: string, b: string, c: string)
    requires a in g && b in g[a] && Reaches(g, b, c)
    ensures Reaches(g, a, c)
  {
    var p :| Path(g, p) && p[0] == b && p[|p| - 1] == c;
    assert Path(g, [a] + p);
  }

  lemma ReachesExtend(g: Graph, a: string, b: string, c: string)
    requires Reaches(g, a, b) && c in g && c in g[b]
    ensures Reaches(g, a, c)
  {
    var p :| Path(g, p) && p[0] == a && p[|p| - 1] == b;
    assert Path(g, p + [c]);
  }

  /** A property closed under calls holds of everything reached. */
  lemma {:induction false} ReachesWithin(g: Graph, p: seq<string>, within: set<string>)
    requires Path(g, p) && p[0] in within
    requires forall n, t :: n in within && n in g && t in g[n] && t in g ==> t in within
    ensures p[|p| - 1] in within
    decreases |p|
  {
    if |p| > 1 {
      var rest := p[1..];
      assert forall i :: 0 <= i < |rest| ==> rest[i] == p[i + 1];
      assert Path(g, rest);
      assert p[1] in g[p[0]];
      ReachesWithin(g, rest, within);
    }
  }

  // ---- everything found is live ------------------------------------------------------------

  ghost predicate LiveFrom(g: Graph, own: Setters, name: string, id: string) {
    exists m :: Reaches(g, name, m) && id in own(m)
  }

  ghost predicate SoundCache(g: Graph, own: Setters, cache: Cache) {
    forall n, id :: n in cache && id in cache[n] ==> LiveFrom(g, own, n, id)
  }

  /** What a walk adds comes from a helper that one of the calls leads to. */
  ghost predicate Justified(g: Graph, own: Setters, calls: seq<string>, ids: set<string>, more: set<string>) {
    forall id :: id in more && id !in ids ==> exists n :: n in calls && n in g && LiveFrom(g, own, n, id)
  }

  lemma {:induction false} WalkSound(g: Graph, own: Setters, calls: seq<string>, seen: set<string>, cache: Cache, ids: set<string>)
    requires SoundCache(g, own, cache)
    ensures var found := Walk(g, own, calls, seen, cache, ids);
      SoundCache(g, own, found.1) && Justified(g, own, calls, ids, found.0)
    decreases |g.Keys - seen|, |calls|
  {
    if calls != [] {
      var name := calls[0];
      if name in seen || name !in g {
        WalkSound(g, own, calls[1..], seen, cache, ids);
      } else if name in cache {
        WalkSound(g, own, calls[1..], seen, cache, ids + cache[name]);
      } else {
        FewerLeft(g, seen, name);
        WalkSound(g, own, g[name], seen + {name}, cache, own(name));
        var found := Walk(g, own, g[name], seen + {name}, cache, own(name));
        HelperSound(g, own, name, found.0);
        WalkSound(g, own, calls[1..], seen, found.1[name := found.0], ids + found.0);
      }
    }
  }

  lemma HelperSound(g: Graph, own: Setters, name: string, found: set<string>)
    requires name in g && Justified(g, own, g[name], own(name), found)
    ensures forall id :: id in found ==> LiveFrom(g, own, name, id)
  {
    forall id | id in found
      ensures LiveFrom(g, own, name, id)
    {
      if id in own(name) {
        ReachesSelf(g, name);
      } else {
        var n :| n in g[name] && n in g && LiveFrom(g, own, n, id);
        var m :| Reaches(g, n, m) && id in own(m);
        ReachesStep(g, name, n, m);
      }
    }
  }

  // ---- what a walk leaves covered ------------------------------------------------------------

  /** Calls of the helpers a walk newly cached lead to cached helpers, or back up its path. */
  ghost predicate Closed(g: Graph, seen: set<string>, before: Cache, after: Cache) {
    forall n, t :: n in after && n !in before && n in g && t in g[n] && t in g ==> t in after || t in seen
  }

  ghost predicate Extends(before: Cache, after: Cache, seen: set<string>) {
    && (forall n :: n in before ==> n in after && after[n] == before[n])
    && (forall n :: n in after && n !in before ==> n !in seen)
  }

  ghost predicate Gathers(own: Setters, before: Cache, after: Cache, ids: set<string>) {
    forall n :: n in after && n !in before ==> own(n) <= ids
  }

  ghost predicate CallsMet(g: Graph, calls: seq<string>, seen: set<string>, after: Cache, ids: set<string>) {
    forall t :: t in calls && t in g && t !in seen ==> t in after && after[t] <= ids
  }

  ghost predicate Covered(g: Graph, own: Setters, calls: seq<string>, seen: set<string>, before: Cache,
                          ids: set<string>, found: (set<string>, Cache)) {
    && ids <= found.0
    && Extends(before, found.1, seen)
    && Closed(g, seen, before, found.1)
    && Gathers(own, before, found.1, found.0)
    && CallsMet(g, calls, seen, found.1, found.0)
  }

  lemma {:induction false} WalkCovers(g: Graph, own: Setters, calls: seq<string>, seen: set<string>, cache: Cache, ids: set<string>)
    ensures Covered(g, own, calls, seen, cache, ids, Walk(g, own, calls, seen, cache, ids))
    decreases |g.Keys - seen|, |calls|
  {
    if calls != [] {
      var name := calls[0];
      if name in seen || name !in g {
        WalkCovers(g, own, calls[1..], seen, cache, ids);
      } else if name in cache {
        WalkCovers(g, own, calls[1..], seen, cache, ids + cache[name]);
      } else {
        FewerLeft(g, seen, name);
        WalkCovers(g, own, g[name], seen + {name}, cache, own(name));
        var found := Walk(g, own, g[name], seen + {name}, cache, own(name));
        var entered := found.1[name := found.0];
        WalkCovers(g, own, calls[1..], seen, entered, ids + found.0);
        CoverJoins(g, own, calls, seen, cache, ids, found, Walk(g, own, calls[1..], seen, entered, ids + found.0));
      }
    }
  }

  lemma CoverJoins(g: Graph, own: Setters, calls: seq<string>, seen: set<string>, cache: Cache, ids: set<string>,
                   found: (set<string>, Cache), rest: (set<string>, Cache))
    requires calls != [] && calls[0] in g && calls[0] !in seen && calls[0] !in cache
    requires Covered(g, own, g[calls[0]], seen + {calls[0]}, cache, own(calls[0]), found)
    requires Covered(g, own, calls[1..], seen, found.1[calls[0] := found.0], ids + found.0, rest)
    ensures Covered(g, own, calls, seen, cache, ids, rest)
  {
    var name := calls[0];
    var entered := found.1[name := found.0];
    forall n, t | n in rest.1 && n !in cache && n in g && t in g[n] && t in g
      ensures t in rest.1 || t in seen
    {
      if n in entered { assert t in entered || t in seen; }
    }
  }

  /** Over an empty cache the walk finds exactly the live ids, whatever calls whatever. */
  lemma FirstIsExact(g: Graph, own: Setters, body: Body, id: string)
    ensures id in Walk(g, own, body.calls, {}, map[], body.ids).0 <==> Live(g, own, body, id)
  {
    FirstIsSound(g, own, body, id);
    FirstCovers(g, own, body, id);
  }

  lemma FirstIsSound(g: Graph, own: Setters, body: Body, id: string)
    ensures id in Walk(g, own, body.calls, {}, map[], body.ids).0 ==> Live(g, own, body, id)
  {
    var found := Walk(g, own, body.calls, {}, map[], body.ids);
    WalkSound(g, own, body.calls, {}, map[], body.ids);
    if id in found.0 && id !in body.ids {
      var n :| n in body.calls && n in g && LiveFrom(g, own, n, id);
      var m :| Reaches(g, n, m) && id in own(m);
      assert n in body.calls && Reaches(g, n, m) && id in own(m);
    }
  }

  lemma FirstCovers(g: Graph, own: Setters, body: Body, id: string)
    ensures Live(g, own, body, id) ==> id in Walk(g, own, body.calls, {}, map[], body.ids).0
  {
    var found := Walk(g, own, body.calls, {}, map[], body.ids);
    WalkCovers(g, own, body.calls, {}, map[], body.ids);
    if Live(g, own, body, id) && id !in body.ids {
      var n, m :| n in body.calls && Reaches(g, n, m) && id in own(m);
      var p :| Path(g, p) && p[0] == n && p[|p| - 1] == m;
      ReachesWithin(g, p, found.1.Keys);
    }
  }

  // ---- when the shared cache is exact --------------------------------------------------------

  ghost predicate NoMutual(g: Graph) {
    forall a, b :: Reaches(g, a, b) && Reaches(g, b, a) ==> a == b
  }

  ghost predicate CompleteCache(g: Graph, own: Setters, cache: Cache) {
    forall n, m :: n in cache && Reaches(g, n, m) ==> own(m) <= cache[n]
  }

  /** A call back up the path of the walk can only be the helper calling itself. */
  ghost predicate Clear(g: Graph, seen: set<string>, calls: seq<string>, top: string) {
    && (forall t :: t in calls && t in seen ==> t == top)
    && (forall s, t :: s in seen && t in calls && t in g ==> Reaches(g, s, t))
  }

  lemma ClearBelow(g: Graph, seen: set<string>, calls: seq<string>, top: string, name: string)
    requires NoMutual(g) && Clear(g, seen, calls, top) && name in calls && name in g
    ensures Clear(g, seen + {name}, g[name], name)
  {
    ReachesSelf(g, name);
    forall s, t | s in seen + {name} && t in g[name] && t in g
      ensures Reaches(g, s, t)
    {
      ReachesExtend(g, s, name, t);
    }
    forall t | t in g[name] && t in seen + {name}
      ensures t == name
    {
      if t != name {
        assert Reaches(g, t, name);
        StartKnown(g, t, name);
        ReachesExtend(g, name, name, t);
      }
    }
  }

  lemma StartKnown(g: Graph, a: string, b: string)
    requires Reaches(g, a, b)
    ensures a in g && b in g
  {
  }

  /** What a helper reaches, it is, or reaches through a call to another. */
  lemma {:induction false} FirstStep(g: Graph, p: seq<string>)
    requires Path(g, p)
    ensures p[|p| - 1] == p[0]
         || exists t :: t in g[p[0]] && t in g && t != p[0] && Reaches(g, t, p[|p| - 1])
    decreases |p|
  {
    if |p| > 1 {
      var rest := p[1..];
      assert forall i :: 0 <= i < |rest| ==> rest[i] == p[i + 1];
      assert Path(g, rest) && p[1] in g[p[0]];
      if p[1] == p[0] { FirstStep(g, rest); } else { assert Reaches(g, p[1], p[|p| - 1]); }
    }
  }

  ghost predicate Reached(g: Graph, own: Setters, calls: seq<string>, seen: set<string>, ids: set<string>) {
    forall t, m :: t in calls && t in g && t !in seen && Reaches(g, t, m) ==> own(m) <= ids
  }

  lemma HelperComplete(g: Graph, own: Setters, seen: set<string>, name: string, found: set<string>)
    requires name in g && own(name) <= found
    requires Clear(g, seen, g[name], name) && Reached(g, own, g[name], seen, found)
    ensures forall m :: Reaches(g, name, m) ==> own(m) <= found
  {
    forall m | Reaches(g, name, m)
      ensures own(m) <= found
    {
      var p :| Path(g, p) && p[0] == name && p[|p| - 1] == m;
      FirstStep(g, p);
    }
  }

  lemma {:induction false} WalkComplete(g: Graph, own: Setters, calls: seq<string>, seen: set<string>, cache: Cache,
                                        ids: set<string>, top: string)
    requires NoMutual(g) && CompleteCache(g, own, cache) && Clear(g, seen, calls, top)
    ensures var found := Walk(g, own, calls, seen, cache, ids);
      ids <= found.0 && CompleteCache(g, own, found.1) && Reached(g, own, calls, seen, found.0)
    decreases |g.Keys - seen|, |calls|
  {
    if calls != [] {
      var name := calls[0];
      assert Clear(g, seen, calls[1..], top);
      if name in seen || name !in g {
        WalkComplete(g, own, calls[1..], seen, cache, ids, top);
      } else if name in cache {
        WalkComplete(g, own, calls[1..], seen, cache, ids + cache[name], top);
      } else {
        FewerLeft(g, seen, name);
        ClearBelow(g, seen, calls, top, name);
        WalkComplete(g, own, g[name], seen + {name}, cache, own(name), name);
        var found := Walk(g, own, g[name], seen + {name}, cache, own(name));
        HelperComplete(g, own, seen + {name}, name, found.0);
        WalkComplete(g, own, calls[1..], seen, found.1[name := found.0], ids + found.0, top);
      }
    }
  }

  /** Every factory's result is exactly what is live for it. */
  ghost predicate Exact(g: Graph, own: Setters, factories: seq<Body>) {
    forall i, id :: 0 <= i < |factories| ==>
      (id in ReadAll(g, own, factories).0[i] <==> Live(g, own, factories[i], id))
  }

  lemma {:induction false} ReadAllSound(g: Graph, own: Setters, factories: seq<Body>)
    ensures SoundCache(g, own, ReadAll(g, own, factories).1)
  {
    if factories != [] {
      var front, factory := factories[..|factories| - 1], factories[|factories| - 1];
      ReadAllSound(g, own, front);
      WalkSound(g, own, factory.calls, {}, ReadAll(g, own, front).1, factory.ids);
    }
  }

  /** On every graph, nothing is reported live that is not. */
  lemma {:induction false} NothingExtra(g: Graph, own: Setters, factories: seq<Body>, i: nat, id: string)
    requires i < |factories| && id in ReadAll(g, own, factories).0[i]
    ensures Live(g, own, factories[i], id)
  {
    var front, factory := factories[..|factories| - 1], factories[|factories| - 1];
    if i < |factories| - 1 {
      NothingExtra(g, own, front, i, id);
    } else {
      ReadAllSound(g, own, front);
      WalkSound(g, own, factory.calls, {}, ReadAll(g, own, front).1, factory.ids);
      if id !in factory.ids {
        var n :| n in factory.calls && n in g && LiveFrom(g, own, n, id);
        var m :| Reaches(g, n, m) && id in own(m);
        assert n in factory.calls && Reaches(g, n, m) && id in own(m);
      }
    }
  }

  lemma {:induction false} NothingMissed(g: Graph, own: Setters, factories: seq<Body>)
    requires NoMutual(g)
    ensures CompleteCache(g, own, ReadAll(g, own, factories).1)
    ensures forall i, id :: 0 <= i < |factories| && Live(g, own, factories[i], id) ==>
      id in ReadAll(g, own, factories).0[i]
  {
    if factories != [] {
      var n := |factories| - 1;
      NothingMissed(g, own, factories[..n]);
      WalkComplete(g, own, factories[n].calls, {}, ReadAll(g, own, factories[..n]).1, factories[n].ids, "");
      forall i, id | 0 <= i < |factories| && Live(g, own, factories[i], id)
        ensures id in ReadAll(g, own, factories).0[i]
      {
        if i < n {
          assert factories[..n][i] == factories[i];
        } else {
          LastComplete(g, own, factories, id);
        }
      }
    }
  }

  lemma LastComplete(g: Graph, own: Setters, factories: seq<Body>, id: string)
    requires NoMutual(g) && factories != []
    requires CompleteCache(g, own, ReadAll(g, own, factories[..|factories| - 1]).1)
    requires Live(g, own, factories[|factories| - 1], id)
    ensures id in ReadAll(g, own, factories).0[|factories| - 1]
  {
    var n := |factories| - 1;
    WalkComplete(g, own, factories[n].calls, {}, ReadAll(g, own, factories[..n]).1, factories[n].ids, "");
    if id !in factories[n].ids {
      var t, m :| t in factories[n].calls && Reaches(g, t, m) && id in own(m);
      StartKnown(g, t, m);
    }
  }

  // ---- and when it is not ----------------------------------------------------------------------

  /** Only one helper's own body sets the id. */
  function Alone(owner: string, id: string): Setters {
    name => if name == owner then {id} else {}
  }

  ghost predicate Lacks(cache: Cache, id: string) {
    forall n :: n in cache ==> id !in cache[n]
  }

  /** While a helper is on the walk's path, nothing cached can hold what it alone sets. */
  lemma {:induction false} WalkLacks(g: Graph, owner: string, id: string, calls: seq<string>, seen: set<string>,
                                     cache: Cache, ids: set<string>)
    requires owner in seen && Lacks(cache, id)
    ensures var found := Walk(g, Alone(owner, id), calls, seen, cache, ids);
      Lacks(found.1, id) && (id !in ids ==> id !in found.0)
    decreases |g.Keys - seen|, |calls|
  {
    if calls != [] {
      var name, own := calls[0], Alone(owner, id);
      if name in seen || name !in g {
        WalkLacks(g, owner, id, calls[1..], seen, cache, ids);
      } else if name in cache {
        WalkLacks(g, owner, id, calls[1..], seen, cache, ids + cache[name]);
      } else {
        FewerLeft(g, seen, name);
        WalkLacks(g, owner, id, g[name], seen + {name}, cache, own(name));
        var found := Walk(g, own, g[name], seen + {name}, cache, own(name));
        WalkLacks(g, owner, id, calls[1..], seen, found.1[name := found.0], ids + found.0);
      }
    }
  }

  /** The last helper but one on a path back to where it is wanted. */
  lemma {:induction false} LastStep(g: Graph, p: seq<string>) returns (x: string)
    requires Path(g, p) && p[0] != p[|p| - 1]
    ensures x != p[|p| - 1] && x in g && p[|p| - 1] in g[x] && Reaches(g, p[0], x)
    decreases |p|
  {
    var a, front := p[|p| - 1], p[..|p| - 1];
    assert Path(g, front);
    assert p[|p| - 1] in g[p[|p| - 2]];
    x := p[|p| - 2];
    if x == a {
      x := LastStep(g, front);
    } else {
      assert front[0] == p[0] && front[|front| - 1] == x;
    }
  }

  /** After a walk from `a`, everything `a` reaches is cached. */
  lemma CachedFrom(g: Graph, own: Setters, a: string, x: string)
    requires Reaches(g, a, x) && x != a
    ensures x in Walk(g, own, g[a], {a}, map[], own(a)).1
  {
    var p :| Path(g, p) && p[0] == a && p[|p| - 1] == x;
    var found := Walk(g, own, g[a], {a}, map[], own(a));
    WalkCovers(g, own, g[a], {a}, map[], own(a));
    ReachesWithin(g, p, found.1.Keys + {a});
  }

  lemma OneCall(g: Graph, own: Setters, name: string)
    requires name in g
    ensures var found := Walk(g, own, g[name], {name}, map[], own(name));
      Walk(g, own, [name], {}, map[], {}) == (found.0, found.1[name := found.0])
  {
    assert {} + {name} == {name} && [name][1..] == [];
    var found := Walk(g, own, g[name], {name}, map[], own(name));
    assert {} + found.0 == found.0;
  }

  lemma CachedCall(g: Graph, own: Setters, name: string, cache: Cache)
    requires name in g && name in cache
    ensures Walk(g, own, [name], {}, cache, {}) == (cache[name], cache)
  {
    assert [name][1..] == [] && {} + cache[name] == cache[name];
  }

  /**
   Two helpers that call each other leave one of them cached without what the other
   sets, and a later factory that starts there misses it.
   */
  lemma MutualMisses(g: Graph, a: string, b: string, id: string) returns (own: Setters, factories: seq<Body>)
    requires Reaches(g, a, b) && Reaches(g, b, a) && a != b
    ensures !Exact(g, own, factories)
  {
    var p :| Path(g, p) && p[0] == b && p[|p| - 1] == a;
    var x := LastStep(g, p);
    own := Alone(a, id);
    ReachesTrans(g, a, b, x);
    StartKnown(g, a, b);
    var found := Walk(g, own, g[a], {a}, map[], own(a));
    WalkLacks(g, a, id, g[a], {a}, map[], own(a));
    CachedFrom(g, own, a, x);
    var first, second := Body({}, [a]), Body({}, [x]);
    factories := [first, second];
    assert factories[..1] == [first] && [first][..0] == [];
    var cached := found.1[a := found.0];
    assert ReadAll(g, own, []) == ([], map[]);
    OneCall(g, own, a);
    assert ReadAll(g, own, [first]).1 == cached;
    CachedCall(g, own, x, cached);
    assert ReadAll(g, own, factories).0[1] == cached[x];
    ReachesSelf(g, a);
    ReachesStep(g, x, a, a);
    assert x in second.calls && Reaches(g, x, a) && id in own(a);
    assert Live(g, own, factories[1], id);
  }

  lemma {:induction false} ReachesTrans(g: Graph, a: string, b: string, c: string)
    requires Reaches(g, a, b) && Reaches(g, b, c)
    ensures Reaches(g, a, c)
  {
    var p :| Path(g, p) && p[0] == a && p[|p| - 1] == b;
    var q :| Path(g, q) && q[0] == b && q[|q| - 1] == c;
    var r := p + q[1..];
    forall i | 0 <= i < |r| - 1
      ensures r[i + 1] in g[r[i]]
    {
      if i >= |p| - 1 { assert r[i + 1] == q[i + 2 - |p|] && r[i] == q[i + 1 - |p|]; }
    }
    assert Path(g, r);
  }

  /**
   One cache for all factories is exact, whatever their bodies and whichever
   setters the helpers install, precisely when no two helpers reach each other.
   */
  lemma SharedCacheExactIff(g: Graph)
    ensures (forall own: Setters, factories: seq<Body> :: Exact(g, own, factories)) <==> NoMutual(g)
  {
    if NoMutual(g) {
      forall own: Setters, factories: seq<Body>
        ensures Exact(g, own, factories)
      {
        NothingMissed(g, own, factories);
        forall i, id | 0 <= i < |factories| && id in ReadAll(g, own, factories).0[i]
          ensures Live(g, own, factories[i], id)
        {
          NothingExtra(g, own, factories, i, id);
        }
      }
    } else {
      var a, b :| Reaches(g, a, b) && Reaches(g, b, a) && a != b;
      var own, factories := MutualMisses(g, a, b, "freq");
      assert !Exact(g, own, factories);
    }
  }
}
