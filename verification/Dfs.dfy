/** Post-order depth-first search over a finite graph with a shared seen-set:
    the traversal all three dependency resolvers run. Cycles are cut by marking
    a key before its successors are visited. */
module Dfs {
  import opened Text

  /** A finite graph: every key with its successors in visiting order. */
  type Graph<K(==)> = map<K, seq<K>>

  ghost predicate Closed<K>(g: Graph<K>) {
    forall k :: k in g ==> forall d :: d in g[k] ==> d in g
  }

  /** The keys marked so far, and the keys finished so far in finishing order. */
  datatype Progress<!K(==)> = Progress(seen: set<K>, done: seq<K>)

  ghost function Visit<K>(g: Graph<K>, k: K, p: Progress<K>): (r: Progress<K>)
    requires Closed(g) && k in g
    ensures p.seen <= r.seen
    decreases g.Keys - p.seen, 0
  {
    if k in p.seen then p
    else
      var q := VisitAll(g, g[k], p.(seen := p.seen + {k}));
      q.(done := q.done + [k])
  }

  ghost function VisitAll<K>(g: Graph<K>, ks: seq<K>, p: Progress<K>): (r: Progress<K>)
    requires Closed(g) && forall k :: k in ks ==> k in g
    ensures p.seen <= r.seen
    decreases g.Keys - p.seen, 1 + |ks|
  {
    if ks == [] then p
    else VisitAll(g, ks[1..], Visit(g, ks[0], p))
  }

  ghost function Start<K>(): Progress<K> {
    Progress({}, [])
  }

  ghost function Run<K>(g: Graph<K>, seeds: seq<K>): Progress<K>
    requires Closed(g) && forall k :: k in seeds ==> k in g
  {
    VisitAll(g, seeds, Start())
  }

  lemma {:induction false} VisitAllMarks<K>(g: Graph<K>, ks: seq<K>, p: Progress<K>)
    requires Closed(g) && forall k :: k in ks ==> k in g
    ensures forall k :: k in ks ==> k in VisitAll(g, ks, p).seen
    decreases |ks|
  {
    if ks != [] {
      VisitAllMarks(g, ks[1..], Visit(g, ks[0], p));
      assert forall k :: k in ks <==> k == ks[0] || k in ks[1..];
    }
  }

  /** A loop over the successors takes them one at a time from the front. */
  lemma {:induction false} VisitAllSnoc<K>(g: Graph<K>, ks: seq<K>, k: K, p: Progress<K>)
    requires Closed(g) && k in g && forall j :: j in ks ==> j in g
    ensures VisitAll(g, ks + [k], p) == Visit(g, k, VisitAll(g, ks, p))
    decreases |ks|
  {
    if ks == [] {
      assert [] + [k] == [k];
      assert VisitAll(g, [], Visit(g, k, p)) == Visit(g, k, p);
    } else {
      assert (ks + [k])[1..] == ks[1..] + [k];
      VisitAllSnoc(g, ks[1..], k, Visit(g, ks[0], p));
    }
  }

  lemma VisitOne<K>(g: Graph<K>, k: K, p: Progress<K>)
    requires Closed(g) && k in g
    ensures VisitAll(g, [k], p) == Visit(g, k, p)
  {
    VisitAllSnoc(g, [], k, p);
    assert [] + [k] == [k];
  }

  lemma {:induction false} VisitAllAppend<K>(g: Graph<K>, ks: seq<K>, ls: seq<K>, p: Progress<K>)
    requires Closed(g) && (forall k :: k in ks ==> k in g) && (forall k :: k in ls ==> k in g)
    ensures VisitAll(g, ks + ls, p) == VisitAll(g, ls, VisitAll(g, ks, p))
    decreases |ks|
  {
    if ks == [] {
      assert [] + ls == ls;
    } else {
      assert (ks + ls)[1..] == ks[1..] + ls;
      VisitAllAppend(g, ks[1..], ls, Visit(g, ks[0], p));
    }
  }

  // ---- reachability -------------------------------------------------------

  ghost predicate IsPath<K>(g: Graph<K>, path: seq<K>) {
    && path != []
    && (forall k :: k in path ==> k in g)
    && (forall i :: 0 < i < |path| ==> path[i] in g[path[i - 1]])
  }

  ghost predicate Connects<K>(g: Graph<K>, path: seq<K>, a: K, b: K) {
    IsPath(g, path) && path[0] == a && path[|path| - 1] == b
  }

  ghost predicate Reaches<K(!new)>(g: Graph<K>, a: K, b: K) {
    exists path :: Connects(g, path, a, b)
  }

  lemma ReachesSelf<K(!new)>(g: Graph<K>, a: K)
    requires a in g
    ensures Reaches(g, a, a)
  {
    assert Connects(g, [a], a, a);
  }

  lemma ReachesStep<K(!new)>(g: Graph<K>, a: K, b: K, c: K)
    requires Closed(g) && Reaches(g, a, b) && b in g && c in g[b]
    ensures Reaches(g, a, c)
  {
    var path :| Connects(g, path, a, b);
    assert Connects(g, path + [c], a, c);
  }

  lemma StepReaches<K(!new)>(g: Graph<K>, a: K, b: K, c: K)
    requires a in g && b in g[a] && Reaches(g, b, c)
    ensures Reaches(g, a, c)
  {
    var path :| Connects(g, path, b, c);
    assert Connects(g, [a] + path, a, c);
  }

  lemma WayOut<K(!new)>(g: Graph<K>, a: K, b: K)
    requires a in g && Reaches(g, a, b)
    ensures a == b || g[a] != []
  {
    if a != b {
      var path :| Connects(g, path, a, b);
      assert path[1] in g[path[0]];
    }
  }

  /** The key from which the last step of the way to b is taken. */
  lemma LastStepTo<K(!new)>(g: Graph<K>, a: K, b: K) returns (c: K)
    requires Reaches(g, a, b) && a != b
    ensures Reaches(g, a, c) && c in g && b in g[c]
  {
    var path :| Connects(g, path, a, b);
    c := path[|path| - 2];
    assert Connects(g, path[..|path| - 1], a, c);
  }

  /** Whatever a key with a single successor reaches beyond itself, the successor
      reaches. */
  lemma OnlyWayOut<K(!new)>(g: Graph<K>, a: K, b: K, c: K)
    requires a in g && g[a] == [b] && a != c && Reaches(g, a, c)
    ensures Reaches(g, b, c)
  {
    var path :| Connects(g, path, a, c);
    assert path[1] in g[path[0]];
    assert Connects(g, path[1..], b, c);
  }

  /** What is closed under successors holds everything reachable from it. */
  lemma {:induction false} ClosedHoldsPath<K>(g: Graph<K>, s: set<K>, path: seq<K>)
    requires IsPath(g, path) && path[0] in s
    requires forall k :: k in s && k in g ==> forall d :: d in g[k] ==> d in s
    ensures path[|path| - 1] in s
    decreases |path|
  {
    if |path| > 1 {
      ClosedHoldsPath(g, s, path[1..]);
    }
  }

  // ---- what one visit keeps -----------------------------------------------

  /** Everything marked but unfinished is an ancestor of k. */
  ghost predicate OpenReach<K(!new)>(g: Graph<K>, p: Progress<K>, k: K) {
    forall s :: s in p.seen && s !in p.done ==> Reaches(g, s, k)
  }

  /** At the moment done[i] was finished, every successor of a finished key was
      finished too, or led to done[i]. */
  ghost predicate OrderedAt<K(!new)>(g: Graph<K>, done: seq<K>, i: nat)
    requires i < |done|
  {
    forall x, v :: x in done[..i + 1] && x in g && v in g[x] ==> v in done[..i + 1] || Reaches(g, v, done[i])
  }

  ghost predicate Sound<K(!new)>(g: Graph<K>, p: Progress<K>) {
    && p.seen <= g.Keys
    && Distinct(p.done)
    && (forall k :: k in p.done ==> k in p.seen)
    && (forall x, v :: x in p.done && x in g && v in g[x] ==> v in p.seen)
    && (forall i :: 0 <= i < |p.done| ==> OrderedAt(g, p.done, i))
  }

  /** From p to r: finished keys stay finished in order, no open key was closed
      or opened, and every newly marked key comes from one of the roots. */
  ghost predicate Extends<K(!new)>(g: Graph<K>, p: Progress<K>, roots: seq<K>, r: Progress<K>) {
    && p.done <= r.done
    && p.seen <= r.seen
    && (forall s :: s in r.seen && s !in r.done ==> s in p.seen && s !in p.done)
    && (forall s :: s in p.seen && s !in p.done ==> s !in r.done)
    && (forall s :: s in r.seen && s !in p.seen ==> exists k :: k in roots && Reaches(g, k, s))
    && (forall k :: k in roots ==> k in r.seen)
  }

  lemma {:induction false} VisitKeeps<K(!new)>(g: Graph<K>, k: K, p: Progress<K>)
    requires Closed(g) && k in g && Sound(g, p) && OpenReach(g, p, k)
    ensures Sound(g, Visit(g, k, p)) && Extends(g, p, [k], Visit(g, k, p))
    decreases g.Keys - p.seen, 0
  {
    if k !in p.seen {
      var p' := p.(seen := p.seen + {k});
      ReachesSelf(g, k);
      forall d | d in g[k]
        ensures OpenReach(g, p', d)
      {
        forall s | s in p'.seen && s !in p'.done
          ensures Reaches(g, s, d)
        {
          ReachesStep(g, s, k, d);
        }
      }
      VisitAllKeeps(g, g[k], p');
      var q := VisitAll(g, g[k], p');
      var r := Visit(g, k, p);
      assert r == Progress(q.seen, q.done + [k]);
      FinishKeeps(g, k, p, q);
      forall s | s in r.seen && s !in p.seen
        ensures Reaches(g, k, s)
      {
        if s != k {
          var d :| d in g[k] && Reaches(g, d, s);
          StepReaches(g, k, d, s);
        }
      }
      assert k in [k];
    } else {
      assert k in [k];
    }
  }

  /** Appending k once all its successors are marked. */
  lemma FinishKeeps<K(!new)>(g: Graph<K>, k: K, p: Progress<K>, q: Progress<K>)
    requires k in g && k !in p.seen && Sound(g, q) && OpenReach(g, p, k)
    requires forall d :: d in g[k] ==> d in q.seen
    requires forall s :: s in q.seen && s !in q.done ==> s == k || (s in p.seen && s !in p.done)
    requires k in q.seen && k !in q.done
    ensures Sound(g, Progress(q.seen, q.done + [k]))
  {
    var done := q.done + [k];
    var n := |q.done|;
    ReachesSelf(g, k);
    assert done[..n + 1] == done;
    assert OrderedAt(g, done, n);
    forall i | 0 <= i < n
      ensures OrderedAt(g, done, i)
    {
      assert done[..i + 1] == q.done[..i + 1];
      assert OrderedAt(g, q.done, i);
    }
  }

  lemma {:induction false} VisitAllKeeps<K(!new)>(g: Graph<K>, ks: seq<K>, p: Progress<K>)
    requires Closed(g) && (forall k :: k in ks ==> k in g) && Sound(g, p)
    requires forall k :: k in ks ==> OpenReach(g, p, k)
    ensures Sound(g, VisitAll(g, ks, p)) && Extends(g, p, ks, VisitAll(g, ks, p))
    decreases g.Keys - p.seen, 1 + |ks|
  {
    if ks != [] {
      VisitKeeps(g, ks[0], p);
      var q := Visit(g, ks[0], p);
      forall k | k in ks[1..]
        ensures OpenReach(g, q, k)
      {
        assert OpenReach(g, p, k);
      }
      VisitAllKeeps(g, ks[1..], q);
      ExtendsAppend(g, p, ks, q, VisitAll(g, ks[1..], q));
    }
  }

  lemma ExtendsAppend<K(!new)>(g: Graph<K>, p: Progress<K>, ks: seq<K>, q: Progress<K>, r: Progress<K>)
    requires ks != [] && Extends(g, p, [ks[0]], q) && Extends(g, q, ks[1..], r)
    ensures Extends(g, p, ks, r)
  {
    assert ks[0] in [ks[0]];
    assert forall k :: k in ks <==> k == ks[0] || k in ks[1..];
  }

  lemma RunKeeps<K(!new)>(g: Graph<K>, seeds: seq<K>)
    requires Closed(g) && forall k :: k in seeds ==> k in g
    ensures Sound(g, Run(g, seeds)) && Extends(g, Start(), seeds, Run(g, seeds))
  {
    VisitAllKeeps(g, seeds, Start());
  }

  // ---- the results ---------------------------------------------------------

  /** The search finishes exactly the keys reachable from the seeds, each once. */
  lemma RunIsExact<K(!new)>(g: Graph<K>, seeds: seq<K>)
    requires Closed(g) && forall k :: k in seeds ==> k in g
    ensures Distinct(Run(g, seeds).done)
    ensures forall k :: k in Run(g, seeds).done <==> exists s :: s in seeds && Reaches(g, s, k)
  {
    RunKeeps(g, seeds);
    var r := Run(g, seeds);
    forall s, k | s in seeds && Reaches(g, s, k)
      ensures k in r.done
    {
      var path :| Connects(g, path, s, k);
      ClosedHoldsPath(g, r.seen, path);
    }
  }

  ghost predicate Precedes<T>(s: seq<T>, a: T, b: T) {
    exists i, j :: 0 <= i < j < |s| && s[i] == a && s[j] == b
  }

  /** Along any path out of a finished key u, the far end is finished before u,
      unless something on the path after u leads back to u. */
  lemma RunIsOrdered<K(!new)>(g: Graph<K>, seeds: seq<K>, path: seq<K>)
    requires Closed(g) && (forall k :: k in seeds ==> k in g)
    requires IsPath(g, path) && |path| > 1 && path[0] in Run(g, seeds).done
    ensures Precedes(Run(g, seeds).done, path[|path| - 1], path[0])
         || exists i :: 0 < i < |path| && Reaches(g, path[i], path[0])
  {
    RunKeeps(g, seeds);
    var done := Run(g, seeds).done;
    var n :| 0 <= n < |done| && done[n] == path[0];
    assert OrderedAt(g, done, n);
    if forall i :: 0 < i < |path| ==> !Reaches(g, path[i], path[0]) {
      FollowsPath(g, done, n, path, |path| - 1);
      var v := path[|path| - 1];
      assert v in done[..n + 1];
      ReachesSelf(g, path[0]);
      assert v != path[0];
      var m :| 0 <= m < n + 1 && done[..n + 1][m] == v;
      assert done[m] == v && m != n;
    }
  }

  lemma {:induction false} FollowsPath<K(!new)>(g: Graph<K>, done: seq<K>, n: nat, path: seq<K>, i: nat)
    requires n < |done| && OrderedAt(g, done, n)
    requires IsPath(g, path) && i < |path| && path[0] == done[n]
    requires forall j :: 0 < j < |path| ==> !Reaches(g, path[j], path[0])
    ensures path[i] in done[..n + 1]
  {
    if i == 0 {
      assert done[..n + 1][n] == path[0];
    } else {
      FollowsPath(g, done, n, path, i - 1);
    }
  }

  /** The key lies on no cycle, self-loops included. */
  ghost predicate OffCycle<K(!new)>(g: Graph<K>, u: K) {
    u in g && forall b :: b in g[u] ==> !Reaches(g, b, u)
  }

  lemma {:induction false} Concatenate<K(!new)>(g: Graph<K>, a: K, b: K, c: K)
    requires Reaches(g, a, b) && Reaches(g, b, c)
    ensures Reaches(g, a, c)
  {
    var p :| Connects(g, p, a, b);
    var q :| Connects(g, q, b, c);
    var r := p + q[1..];
    forall i | 0 < i < |r|
      ensures r[i] in g[r[i - 1]]
    {
      if i >= |p| {
        assert r[i] == q[i - |p| + 1] && r[i - 1] == q[i - |p|];
      }
    }
    assert Connects(g, r, a, c);
  }

  /** A key on no cycle is finished after everything it reaches, whatever cycles there
      are elsewhere. */
  lemma RunIsTopological<K(!new)>(g: Graph<K>, seeds: seq<K>, u: K, v: K)
    requires Closed(g) && OffCycle(g, u) && (forall k :: k in seeds ==> k in g)
    requires u in Run(g, seeds).done && Reaches(g, u, v) && u != v
    ensures Precedes(Run(g, seeds).done, v, u)
  {
    var path :| Connects(g, path, u, v);
    RunIsOrdered(g, seeds, path);
    assert path[1] in g[path[0]];
    forall i | 0 < i < |path|
      ensures !Reaches(g, path[i], u)
    {
      if Reaches(g, path[i], u) {
        assert Connects(g, path[1..i + 1], path[1], path[i]);
        Concatenate(g, path[1], path[i], u);
      }
    }
  }

  // ---- output collected along the way --------------------------------------

  /** The items appended while finishing the keys, in order. */
  ghost function Collect<K, P>(done: seq<K>, emit: K -> Option<P>): seq<P> {
    if done == [] then []
    else
      var rest := Collect(done[..|done| - 1], emit);
      var e := emit(done[|done| - 1]);
      if e.Some? then rest + [e.value] else rest
  }

  lemma NothingCollected<K, P>(emit: K -> Option<P>)
    ensures Collect([], emit) == []
  {
  }

  lemma CollectSnoc<K, P>(done: seq<K>, k: K, emit: K -> Option<P>)
    ensures Collect(done + [k], emit)
         == Collect(done, emit) + (if emit(k).Some? then [emit(k).value] else [])
  {
    assert (done + [k])[..|done|] == done;
  }

  /** An item is collected exactly when some finished key emits it. */
  lemma {:induction false} CollectIsExact<K, P>(done: seq<K>, emit: K -> Option<P>, x: P)
    ensures x in Collect(done, emit) <==> exists k :: k in done && emit(k) == Some(x)
  {
    if done != [] {
      var init, last := done[..|done| - 1], done[|done| - 1];
      CollectIsExact(init, emit, x);
      assert done == init + [last];
    }
  }

  /** The finished keys that emit x. */
  ghost function Emitters<K, P>(done: seq<K>, emit: K -> Option<P>, x: P): set<K> {
    set k | k in done && emit(k) == Some(x)
  }

  lemma EmittersSnoc<K, P>(done: seq<K>, k: K, emit: K -> Option<P>, x: P)
    requires k !in done
    ensures |Emitters(done + [k], emit, x)| == |Emitters(done, emit, x)| + (if emit(k) == Some(x) then 1 else 0)
  {
    assert Emitters(done + [k], emit, x) == Emitters(done, emit, x) + (if emit(k) == Some(x) then {k} else {});
  }

  /** An item is listed once for every finished key that emits it. */
  lemma {:induction false} CollectCounts<K, P>(done: seq<K>, emit: K -> Option<P>, x: P)
    requires Distinct(done)
    ensures multiset(Collect(done, emit))[x] == |Emitters(done, emit, x)|
  {
    if done == [] {
      assert Emitters(done, emit, x) == {};
    } else {
      var init, last := done[..|done| - 1], done[|done| - 1];
      CollectCounts(init, emit, x);
      assert done == init + [last];
      EmittersSnoc(init, last, emit, x);
      hide Emitters;
    }
  }

  lemma {:induction false} CollectPrefix<K, P>(done: seq<K>, i: nat, emit: K -> Option<P>)
    requires i <= |done|
    ensures Collect(done[..i], emit) <= Collect(done, emit)
    decreases |done|
  {
    if i == |done| {
      assert done[..i] == done;
    } else {
      var init := done[..|done| - 1];
      assert done[..i] == init[..i];
      CollectPrefix(init, i, emit);
    }
  }

  /** Where the item of the i-th finished key stands in the output. */
  ghost function Place<K, P>(done: seq<K>, i: nat, emit: K -> Option<P>): nat
    requires i <= |done|
  {
    |Collect(done[..i], emit)|
  }

  lemma PlaceHolds<K, P>(done: seq<K>, i: nat, emit: K -> Option<P>)
    requires i < |done| && emit(done[i]).Some?
    ensures Place(done, i, emit) < |Collect(done, emit)|
    ensures Collect(done, emit)[Place(done, i, emit)] == emit(done[i]).value
  {
    assert done[..i + 1] == done[..i] + [done[i]];
    CollectSnoc(done[..i], done[i], emit);
    CollectPrefix(done, i + 1, emit);
  }

  lemma PlaceRises<K, P>(done: seq<K>, i: nat, j: nat, emit: K -> Option<P>)
    requires i < j <= |done| && emit(done[i]).Some?
    ensures Place(done, i, emit) < Place(done, j, emit)
  {
    assert done[..j][..i] == done[..i] && done[..j][i] == done[i];
    PlaceHolds(done[..j], i, emit);
  }

  /** Every item of the output is some finished key's. */
  lemma {:induction false} PlacedBySome<K, P>(done: seq<K>, m: nat, emit: K -> Option<P>) returns (i: nat)
    requires m < |Collect(done, emit)|
    ensures i < |done| && emit(done[i]).Some? && Place(done, i, emit) == m
  {
    var n := |done| - 1;
    var init := done[..n];
    if m < |Collect(init, emit)| {
      i := PlacedBySome(init, m, emit);
      assert init[..i] == done[..i];
    } else {
      i := n;
    }
  }

  /** The item the key a appended stands in the output before the one b appended. */
  ghost predicate ListedBefore<K, P>(done: seq<K>, emit: K -> Option<P>, a: K, b: K) {
    exists i, j :: 0 <= i < j < |done| && done[i] == a && done[j] == b && PlacedBefore(done, emit, i, j)
  }

  ghost predicate PlacedBefore<K, P>(done: seq<K>, emit: K -> Option<P>, i: nat, j: nat)
    requires i < |done| && j < |done|
  {
    var list, p, q := Collect(done, emit), Place(done, i, emit), Place(done, j, emit);
    p < q < |list| && emit(done[i]) == Some(list[p]) && emit(done[j]) == Some(list[q])
  }

  /** Output order follows finishing order, key by key: also when several keys append
      the same item. */
  lemma CollectKeepsOrder<K, P>(done: seq<K>, emit: K -> Option<P>, a: K, b: K)
    requires Precedes(done, a, b) && emit(a).Some? && emit(b).Some?
    ensures ListedBefore(done, emit, a, b)
  {
    var i, j :| 0 <= i < j < |done| && done[i] == a && done[j] == b;
    PlaceHolds(done, i, emit);
    PlaceHolds(done, j, emit);
    PlaceRises(done, i, j, emit);
    assert PlacedBefore(done, emit, i, j);
    hide Collect, Place;
  }

  ghost predicate StandsBefore<P>(list: seq<P>, x: P, q: nat) {
    exists p :: 0 <= p < q && p < |list| && list[p] == x
  }

  /** In a list without repeated keys, what is listed before the item of done[j] stands
      before that very place. */
  lemma ListedBeforePlace<K, P>(done: seq<K>, emit: K -> Option<P>, a: K, j: nat)
    requires Distinct(done) && j < |done| && ListedBefore(done, emit, a, done[j])
    ensures emit(a).Some? && StandsBefore(Collect(done, emit), emit(a).value, Place(done, j, emit))
  {
    var i, j' :| 0 <= i < j' < |done| && done[i] == a && done[j'] == done[j] && PlacedBefore(done, emit, i, j');
    assert j' == j && PlacedBefore(done, emit, i, j);
    hide Collect, Place;
    var list, p, q := Collect(done, emit), Place(done, i, emit), Place(done, j, emit);
    assert 0 <= p < q < |list| && list[p] == emit(a).value;
  }

  /** Along any path out of a finished key, the item of the far end is listed before the
      item of the key, place for place, unless something on the path leads back. */
  lemma RunListsInOrder<K(!new), P>(g: Graph<K>, seeds: seq<K>, emit: K -> Option<P>, path: seq<K>)
    requires Closed(g) && (forall k :: k in seeds ==> k in g)
    requires IsPath(g, path) && |path| > 1 && path[0] in Run(g, seeds).done
    requires emit(path[0]).Some? && emit(path[|path| - 1]).Some?
    ensures ListedBefore(Run(g, seeds).done, emit, path[|path| - 1], path[0])
         || exists i :: 0 < i < |path| && Reaches(g, path[i], path[0])
  {
    RunIsOrdered(g, seeds, path);
    if Precedes(Run(g, seeds).done, path[|path| - 1], path[0]) {
      CollectKeepsOrder(Run(g, seeds).done, emit, path[|path| - 1], path[0]);
    }
  }

  lemma RunListsEdge<K(!new), P>(g: Graph<K>, seeds: seq<K>, emit: K -> Option<P>, u: K, v: K)
    requires Closed(g) && (forall k :: k in seeds ==> k in g)
    requires u in g && v in g && v in g[u] && u in Run(g, seeds).done && emit(u).Some? && emit(v).Some?
    ensures ListedBefore(Run(g, seeds).done, emit, v, u) || Reaches(g, v, u)
  {
    assert IsPath(g, [u, v]);
    RunListsInOrder(g, seeds, emit, [u, v]);
  }

  /** The same over a key d that has no other successor. */
  lemma RunListsTwoEdges<K(!new), P>(g: Graph<K>, seeds: seq<K>, emit: K -> Option<P>, u: K, d: K, v: K)
    requires Closed(g) && (forall k :: k in seeds ==> k in g)
    requires u in g && d in g && d in g[u] && g[d] == [v] && d != u
    requires u in Run(g, seeds).done && emit(u).Some? && emit(v).Some?
    ensures ListedBefore(Run(g, seeds).done, emit, v, u) || Reaches(g, v, u)
  {
    assert v in g[d];
    assert IsPath(g, [u, d, v]);
    RunListsInOrder(g, seeds, emit, [u, d, v]);
    if Reaches(g, d, u) {
      OnlyWayOut(g, d, v, u);
    }
  }

  /** Everything a key on no cycle reaches is listed before it. */
  lemma RunListsTopologically<K(!new), P>(g: Graph<K>, seeds: seq<K>, emit: K -> Option<P>, u: K, v: K)
    requires Closed(g) && OffCycle(g, u) && (forall k :: k in seeds ==> k in g)
    requires u in Run(g, seeds).done && Reaches(g, u, v) && u != v && emit(u).Some? && emit(v).Some?
    ensures ListedBefore(Run(g, seeds).done, emit, v, u)
  {
    RunIsTopological(g, seeds, u, v);
    CollectKeepsOrder(Run(g, seeds).done, emit, v, u);
  }
}
