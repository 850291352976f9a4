/** The registry of builds behind the MCP tools: sessions leave "running" once, keep
    their outcome, and the oldest finished ones are dropped when there are too many.
    Every operation runs under one mutex, so a run is a sequence of operations. */
module BuildRegistry {
  import opened Text

  const MAX_SESSIONS: nat := 200

  datatype State = Running | Succeeded | Failed | Canceled

  /** What a snapshot of a session shows. closes counts how often its done channel
      was closed; closing it twice would be a run-time panic. */
  datatype Info = Info(state: State, err: string, endedAt: int, closes: nat, cancelled: bool,
                       outputDir: string, inContainer: bool, runtime: string, image: string)

  const FRESH: Info := Info(Running, "", 0, 0, false, "", false, "", "")

  /** The sessions in the registry, and the dropped ones as their holders see them. */
  datatype World = World(live: map<string, Info>, gone: map<string, Info>)

  const EMPTY: World := World(map[], map[])

  datatype Event =
    | Register(id: string)
    | Finish(id: string, outcome: State, err: string, now: int)
    | UpdateContainer(id: string, runtime: string, image: string)
    | SetOutputDir(id: string, dir: string)
    | Cancel(id: string)

  // ---- one operation ------------------------------------------------------------------

  function Finished(s: Info, outcome: State, err: string, now: int): Info {
    if s.state != Running then s
    else s.(state := outcome, err := err, endedAt := now, closes := s.closes + 1)
  }

  /** What an operation on a known session does to it. */
  function Touched(s: Info, e: Event): Info {
    match e
    case Register(_) => s
    case Finish(_, outcome, err, now) => Finished(s, outcome, err, now)
    case UpdateContainer(_, runtime, image) => s.(inContainer := true, runtime := runtime, image := image)
    case SetOutputDir(_, dir) => s.(outputDir := dir)
    case Cancel(_) => s.(cancelled := true)
  }

  /** Dropping sessions: only finished ones, only as many as needed, oldest first. */
  ghost predicate Evicts(before: map<string, Info>, after: map<string, Info>) {
    && (forall id :: id in after ==> id in before && after[id] == before[id])
    && (forall id :: id in before && id !in after ==> before[id].state != Running)
    && (|before| <= MAX_SESSIONS ==> after == before)
    && (|before| > MAX_SESSIONS ==> |after| >= MAX_SESSIONS)
    && (|after| > MAX_SESSIONS ==> forall id :: id in after ==> after[id].state == Running)
    && (forall d, k :: d in before && d !in after && k in after && after[k].state != Running
          ==> before[d].endedAt <= after[k].endedAt)
  }

  ghost predicate Registers(w: World, id: string, w': World) {
    && id !in w.live && id !in w.gone
    && Evicts(w.live[id := FRESH], w'.live)
    && w'.gone == w.gone + (w.live[id := FRESH] - w'.live.Keys)
  }

  function Touch(w: World, id: string, e: Event): World {
    if id in w.live then w.(live := w.live[id := Touched(w.live[id], e)]) else w
  }

  ghost predicate Step(w: World, e: Event, w': World) {
    match e
    case Register(id) => Registers(w, id, w')
    case Finish(id, outcome, _, _) => outcome != Running && w' == Touch(w, id, e)
    case _ => w' == Touch(w, e.id, e)
  }

  // ---- whole runs -----------------------------------------------------------------------

  ghost predicate IsRun(ws: seq<World>, es: seq<Event>) {
    && |ws| == |es| + 1 && ws[0] == EMPTY
    && forall i :: 0 <= i < |es| ==> Step(ws[i], es[i], ws[i + 1])
  }

  predicate Known(w: World, id: string) {
    id in w.live || id in w.gone
  }

  function Seen(w: World, id: string): Info
    requires Known(w, id)
  {
    if id in w.live then w.live[id] else w.gone[id]
  }

  /** The done channel is closed exactly when the outcome is final, and then once. */
  predicate Closed(s: Info) {
    s.closes == if s.state == Running then 0 else 1
  }

  ghost predicate Sound(w: World) {
    && w.live.Keys !! w.gone.Keys
    && (forall id :: id in w.live ==> Closed(w.live[id]))
    && (forall id :: id in w.gone ==> Closed(w.gone[id]) && w.gone[id].state != Running)
  }

  lemma StepIsSound(w: World, e: Event, w': World)
    requires Sound(w) && Step(w, e, w')
    ensures Sound(w')
  {
    if e.Register? {
      RegisterIsSound(w, e.id, w');
    } else {
      TouchIsSound(w, e.id, e);
    }
    hide Sound, Touch;
  }

  lemma RegisterIsSound(w: World, id: string, w': World)
    requires Sound(w) && Registers(w, id, w')
    ensures Sound(w')
  {
    FreshIsRunning();
    hide Registers, Closed;
    forall k
      ensures k in w'.live ==> Closed(w'.live[k])
      ensures k in w'.gone ==> Closed(w'.gone[k]) && w'.gone[k].state != Running
      ensures !(k in w'.live && k in w'.gone)
    {
      RegisteredAt(w, id, w', k);
    }
  }

  lemma FreshIsRunning()
    ensures Closed(FRESH) && FRESH.state == Running
  {
  }

  lemma RegisteredAt(w: World, id: string, w': World, k: string)
    requires Registers(w, id, w') && w.live.Keys !! w.gone.Keys
    ensures k in w'.live ==> if k == id then w'.live[k] == FRESH else k in w.live && w'.live[k] == w.live[k]
    ensures k in w'.gone ==>
      || (k in w.gone && w'.gone[k] == w.gone[k])
      || (k in w.live && w'.gone[k] == w.live[k] && w.live[k].state != Running)
    ensures !(k in w'.live && k in w'.gone)
  {
    var added := w.live[id := FRESH];
    assert k in w'.gone <==> k in w.gone || (k in added && k !in w'.live);
  }

  lemma TouchIsSound(w: World, id: string, e: Event)
    requires Sound(w) && (e.Finish? ==> e.outcome != Running)
    ensures Sound(Touch(w, id, e))
  {
  }

  /** In every state of every run: channels are closed exactly for finished sessions,
      and no running session was ever dropped. */
  lemma {:induction false} RunsAreSound(ws: seq<World>, es: seq<Event>, i: nat)
    requires IsRun(ws, es) && i < |ws|
    ensures Sound(ws[i])
  {
    if i > 0 {
      RunsAreSound(ws, es, i - 1);
      StepIsSound(ws[i - 1], es[i - 1], ws[i]);
      hide Step, Sound;
    }
  }

  lemma StepKeepsOutcome(w: World, e: Event, w': World, id: string)
    requires Step(w, e, w') && Known(w, id)
    ensures Known(w', id)
    ensures Seen(w, id).state != Running && w.live.Keys !! w.gone.Keys ==>
      Seen(w', id).state == Seen(w, id).state && Seen(w', id).err == Seen(w, id).err
      && Seen(w', id).endedAt == Seen(w, id).endedAt && Seen(w', id).closes == Seen(w, id).closes
  {
  }

  /** Once final, an outcome never changes, whether or not the session is dropped. */
  lemma {:induction false} OutcomeIsFrozen(ws: seq<World>, es: seq<Event>, i: nat, j: nat, id: string)
    requires IsRun(ws, es) && i <= j < |ws| && Known(ws[i], id) && Seen(ws[i], id).state != Running
    ensures Known(ws[j], id)
    ensures var a, b := Seen(ws[i], id), Seen(ws[j], id);
      b.state == a.state && b.err == a.err && b.endedAt == a.endedAt && b.closes == a.closes
    decreases j
  {
    hide *;
    if i < j {
      StepAt(ws, es, j - 1);
      OutcomeIsFrozen(ws, es, i, j - 1, id);
      RunsAreSound(ws, es, j - 1);
      FinalStays(ws[j - 1], es[j - 1], ws[j], id);
    }
  }

  lemma StepAt(ws: seq<World>, es: seq<Event>, j: nat)
    requires IsRun(ws, es) && j + 1 < |ws|
    ensures j < |es| && Step(ws[j], es[j], ws[j + 1])
  {
    hide Step;
  }

  lemma FinalStays(w: World, e: Event, w': World, id: string)
    requires Sound(w) && Step(w, e, w') && Known(w, id) && Seen(w, id).state != Running
    ensures Known(w', id)
    ensures var a, b := Seen(w, id), Seen(w', id);
      b.state == a.state && b.err == a.err && b.endedAt == a.endedAt && b.closes == a.closes
  {
    hide Step, Seen;
    StepKeepsOutcome(w, e, w', id);
  }

  /** A running session that finishes shows the given state, error and end time, at once
      and ever after; one that has finished before is left as it was. */
  lemma FinishIsRecorded(ws: seq<World>, es: seq<Event>, i: nat, j: nat, id: string, outcome: State, err: string, now: int)
    requires IsRun(ws, es) && i < j < |ws| && es[i] == Finish(id, outcome, err, now) && id in ws[i].live
    ensures ws[i].live[id].state == Running ==>
      Known(ws[j], id) && Seen(ws[j], id).state == outcome && Seen(ws[j], id).err == err && Seen(ws[j], id).endedAt == now
    ensures ws[i].live[id].state != Running ==> ws[i + 1] == ws[i]
  {
    assert Step(ws[i], es[i], ws[i + 1]);
    assert outcome != Running;
    if ws[i].live[id].state == Running {
      assert Seen(ws[i + 1], id).state == outcome && Seen(ws[i + 1], id).err == err && Seen(ws[i + 1], id).endedAt == now;
      OutcomeIsFrozen(ws, es, i + 1, j, id);
    } else {
      assert ws[i].live[id := ws[i].live[id]] == ws[i].live;
    }
  }

  /** What the other operations record about a session in the registry. */
  lemma DetailsAreRecorded(w: World, e: Event, w': World)
    requires Sound(w) && Step(w, e, w')
    ensures e.UpdateContainer? && e.id in w.live ==>
      Known(w', e.id) && Seen(w', e.id) == Seen(w, e.id).(inContainer := true, runtime := e.runtime, image := e.image)
    ensures e.SetOutputDir? && e.id in w.live ==>
      Known(w', e.id) && Seen(w', e.id) == Seen(w, e.id).(outputDir := e.dir)
    ensures e.Cancel? && e.id in w.live ==>
      Known(w', e.id) && Seen(w', e.id) == Seen(w, e.id).(cancelled := true)
    ensures e.Register? ==> e.id in w'.live && w'.live[e.id].state == Running && w'.live[e.id].err == ""
  {
    if e.Register? {
      NewSessionRuns(w, e.id, w');
    }
    hide Registers;
  }

  lemma NewSessionRuns(w: World, id: string, w': World)
    requires Registers(w, id, w')
    ensures id in w'.live && w'.live[id] == FRESH
  {
    assert w.live[id := FRESH][id].state == Running;
  }

  /** No operation changes what is seen of another session, nor of one that is dropped. */
  lemma OthersAreSeenAlike(w: World, e: Event, w': World, id: string)
    requires Sound(w) && Step(w, e, w') && Known(w, id) && (id != e.id || id !in w.live)
    ensures Known(w', id) && Seen(w', id) == Seen(w, id)
  {
  }

  ghost predicate LeavesRunning(ws: seq<World>, i: nat, id: string)
    requires i + 1 < |ws|
  {
    && Known(ws[i], id) && Seen(ws[i], id).state == Running
    && Known(ws[i + 1], id) && Seen(ws[i + 1], id).state != Running
  }

  /** A session leaves "running" at most once in a run. */
  lemma LeavesRunningOnce(ws: seq<World>, es: seq<Event>, i: nat, j: nat, id: string)
    requires IsRun(ws, es) && i + 1 < |ws| && j + 1 < |ws|
    requires LeavesRunning(ws, i, id) && LeavesRunning(ws, j, id)
    ensures i == j
  {
    if i < j {
      OutcomeIsFrozen(ws, es, i + 1, j, id);
    } else if j < i {
      OutcomeIsFrozen(ws, es, j + 1, i, id);
    }
  }

  /** A session that finishes now does not end earlier than one already dropped. */
  ghost predicate NotBeforeDropped(w: World, e: Event) {
    e.Finish? && e.id in w.live && w.live[e.id].state == Running ==> forall d :: d in w.gone ==> w.gone[d].endedAt <= e.now
  }

  ghost predicate OldestGone(w: World) {
    forall d, k :: d in w.gone && k in w.live && w.live[k].state != Running ==> w.gone[d].endedAt <= w.live[k].endedAt
  }

  lemma StepKeepsOldestGone(w: World, e: Event, w': World)
    requires Sound(w) && Step(w, e, w') && OldestGone(w)
    ensures OldestGone(w') <==> NotBeforeDropped(w, e)
  {
    if e.Register? {
      RegisterKeepsOldestGone(w, e.id, w');
    } else if e.Finish? && e.id in w.live && w.live[e.id].state == Running {
      assert w'.live[e.id].state != Running && w'.live[e.id].endedAt == e.now && w'.gone == w.gone;
    }
    hide Registers;
  }

  lemma RegisterKeepsOldestGone(w: World, id: string, w': World)
    requires Sound(w) && Registers(w, id, w') && OldestGone(w)
    ensures OldestGone(w')
  {
    var added := w.live[id := FRESH];
    assert forall k :: k in w'.gone <==> k in w.gone || (k in added && k !in w'.live);
  }

  /** At every moment every dropped session ended no later than every finished session
      still kept, exactly when no session that finished was given an end time before one
      already dropped: as with a clock that does not run backwards. */
  lemma DroppedAreOldest(ws: seq<World>, es: seq<Event>)
    requires IsRun(ws, es)
    ensures (forall i :: 0 <= i < |ws| ==> OldestGone(ws[i])) <==> (forall i :: 0 <= i < |es| ==> NotBeforeDropped(ws[i], es[i]))
  {
    hide Step, OldestGone, Sound, NotBeforeDropped;
    forall i | 0 <= i < |es| && (forall j :: 0 <= j < |ws| ==> OldestGone(ws[j]))
      ensures NotBeforeDropped(ws[i], es[i])
    {
      RunsAreSound(ws, es, i);
      assert OldestGone(ws[i]) && OldestGone(ws[i + 1]);
      StepKeepsOldestGone(ws[i], es[i], ws[i + 1]);
    }
    forall i | 0 <= i < |ws| && (forall j :: 0 <= j < |es| ==> NotBeforeDropped(ws[j], es[j]))
      ensures OldestGone(ws[i])
    {
      OldestSoFar(ws, es, i);
    }
  }

  lemma {:induction false} OldestSoFar(ws: seq<World>, es: seq<Event>, i: nat)
    requires IsRun(ws, es) && i < |ws| && forall j :: 0 <= j < i ==> NotBeforeDropped(ws[j], es[j])
    ensures OldestGone(ws[i])
  {
    hide Step, Sound, NotBeforeDropped;
    if i == 0 {
      assert ws[0].gone == map[];
    } else {
      OldestSoFar(ws, es, i - 1);
      RunsAreSound(ws, es, i - 1);
      StepKeepsOldestGone(ws[i - 1], es[i - 1], ws[i]);
    }
  }

  /** Right after a Register there are at most MAX_SESSIONS sessions, or all are
      running; the new one is among them. */
  lemma AfterRegister(ws: seq<World>, es: seq<Event>, i: nat)
    requires IsRun(ws, es) && i < |es| && es[i].Register?
    ensures var live := ws[i + 1].live;
      && (|live| <= 200 || forall id :: id in live ==> live[id].state == Running)
      && es[i].id in live && live[es[i].id] == FRESH
  {
    assert Step(ws[i], es[i], ws[i + 1]);
  }

  // ---- the in-place sort --------------------------------------------------------------------

  datatype Ended = Ended(id: string, endedAt: int)

  ghost predicate Ascending(s: seq<Ended>) {
    forall p, q :: 0 <= p < q < |s| ==> s[p].endedAt <= s[q].endedAt
  }

  lemma SwapKeepsElements(s: seq<Ended>, j: nat)
    requires 0 < j < |s|
    ensures multiset(s[j - 1 := s[j]][j := s[j - 1]]) == multiset(s)
  {
  }

  /** All of s[..n] is in order but for the element at j, which belongs at or before j. */
  ghost predicate AscendingBut(s: seq<Ended>, n: nat, j: nat) {
    forall p, q :: 0 <= p < q < n <= |s| && q != j ==> s[p].endedAt <= s[q].endedAt
  }

  lemma SwapSinks(s: seq<Ended>, n: nat, j: nat)
    requires 0 < j < n <= |s| && AscendingBut(s, n, j) && s[j - 1].endedAt > s[j].endedAt
    ensures var t := s[j - 1 := s[j]][j := s[j - 1]];
      AscendingBut(t, n, j - 1) && multiset(t) == multiset(s)
  {
    SwapKeepsElements(s, j);
  }

  /** The element at i moves down to its place among those before it. */
  method Sink(terminals: array<Ended>, i: nat)
    requires i < terminals.Length && Ascending(terminals[..i])
    modifies terminals
    ensures Ascending(terminals[..i + 1]) && multiset(terminals[..]) == multiset(old(terminals[..]))
  {
    var j := i;
    assert terminals[..i] == terminals[..][..i];
    while j > 0 && terminals[j - 1].endedAt > terminals[j].endedAt
      invariant 0 <= j <= i && AscendingBut(terminals[..], i + 1, j)
      invariant multiset(terminals[..]) == multiset(old(terminals[..]))
    {
      ghost var before := terminals[..];
      SwapSinks(before, i + 1, j);
      terminals[j - 1], terminals[j] := terminals[j], terminals[j - 1];
      assert terminals[..] == before[j - 1 := before[j]][j := before[j - 1]];
      j := j - 1;
    }
    Sunk(terminals[..], i + 1, j);
    assert terminals[..][..i + 1] == terminals[..i + 1];
  }

  lemma Sunk(s: seq<Ended>, n: nat, j: nat)
    requires j < n <= |s| && AscendingBut(s, n, j) && (j > 0 ==> s[j - 1].endedAt <= s[j].endedAt)
    ensures Ascending(s[..n])
  {
    forall p, q | 0 <= p < q < n
      ensures s[p].endedAt <= s[q].endedAt
    {
      if q == j && p < j - 1 {
        assert s[p].endedAt <= s[j - 1].endedAt;
      }
    }
  }

  /** Oldest first, in place. */
  method SortByEnd(terminals: array<Ended>)
    modifies terminals
    ensures Ascending(terminals[..]) && multiset(terminals[..]) == multiset(old(terminals[..]))
  {
    var i := 1;
    if terminals.Length == 0 {
      return;
    }
    assert Ascending(terminals[..1]);
    hide Ascending;
    while i < terminals.Length
      invariant 1 <= i <= terminals.Length && Ascending(terminals[..i])
      invariant multiset(terminals[..]) == multiset(old(terminals[..]))
    {
      Sink(terminals, i);
      i := i + 1;
    }
    assert terminals[..i] == terminals[..];
  }

  ghost predicate DistinctIds(s: seq<Ended>) {
    forall p, q :: 0 <= p < q < |s| ==> s[p].id != s[q].id
  }

  /** Rearranging keeps the elements, and with them the distinctness of their ids. */
  lemma RearrangedIds(s: seq<Ended>, t: seq<Ended>)
    requires multiset(s) == multiset(t) && DistinctIds(s)
    ensures DistinctIds(t) && |t| == |s| && forall e :: e in t <==> e in s
  {
    assert |multiset(s)| == |s| && |multiset(t)| == |t|;
    forall e
      ensures e in t <==> e in s
    {
      assert e in multiset(t) <==> e in t;
      assert e in multiset(s) <==> e in s;
    }
    forall p, q | 0 <= p < q < |t|
      ensures t[p].id != t[q].id
    {
      if t[p].id == t[q].id {
        assert t[p] in t && t[q] in t && t[p] in s && t[q] in s;
        var a :| 0 <= a < |s| && s[a] == t[p];
        var b :| 0 <= b < |s| && s[b] == t[q];
        assert a == b;
        TwiceInSequence(t, p, q);
        OnceInDistinct(s, a);
      }
    }
  }

  lemma TwiceInSequence(t: seq<Ended>, p: nat, q: nat)
    requires p < q < |t| && t[p] == t[q]
    ensures multiset(t)[t[p]] >= 2
  {
    assert t == t[..q] + t[q..];
    assert t[..q][p] in multiset(t[..q]) && t[q..][0] in multiset(t[q..]);
  }

  lemma OnceInDistinct(s: seq<Ended>, a: nat)
    requires a < |s| && DistinctIds(s)
    ensures multiset(s)[s[a]] == 1
  {
    assert s == s[..a] + [s[a]] + s[a + 1..];
    assert s[a] !in s[..a] && s[a] !in s[a + 1..];
  }

  /** e describes a finished session. */
  predicate IsTerminal(live: map<string, Info>, e: Ended) {
    e.id in live && live[e.id].state != Running && e.endedAt == live[e.id].endedAt
  }

  ghost function Ids(s: seq<Ended>): set<string> {
    set e | e in s :: e.id
  }

  lemma IdsSnoc(s: seq<Ended>, k: nat)
    requires k < |s|
    ensures Ids(s[..k + 1]) == Ids(s[..k]) + {s[k].id}
  {
    assert s[..k + 1] == s[..k] + [s[k]];
  }

  lemma NothingDeleted<V>(all: map<string, V>, sorted: seq<Ended>)
    ensures all == all - Ids(sorted[..0])
  {
    assert sorted[..0] == [] && Ids([]) == {};
  }

  lemma DeleteNext<V>(all: map<string, V>, left: map<string, V>, sorted: seq<Ended>, k: nat)
    requires k < |sorted| && DistinctIds(sorted) && forall e :: e in sorted ==> e.id in all
    requires left == all - Ids(sorted[..k])
    ensures left - {sorted[k].id} == all - Ids(sorted[..k + 1])
    ensures |left - {sorted[k].id}| == |left| - 1
  {
    IdsSnoc(sorted, k);
    NotYet(sorted, k);
    assert sorted[k] in sorted;
    hide Ids, DistinctIds;
    RemoveOne(left, sorted[k].id);
  }

  lemma NotYet(s: seq<Ended>, k: nat)
    requires DistinctIds(s) && k < |s|
    ensures s[k].id !in Ids(s[..k])
  {
  }

  /** Removing the first entries of the sorted list, as many as needed, is an eviction. */
  lemma PrefixEvicts(before: map<string, Info>, after: map<string, Info>, sorted: seq<Ended>, k: nat)
    requires Ascending(sorted) && k <= |sorted| && forall e :: e in sorted <==> IsTerminal(before, e)
    requires after == before - Ids(sorted[..k])
    requires |before| <= MAX_SESSIONS ==> k == 0
    requires |before| > MAX_SESSIONS ==> |after| >= MAX_SESSIONS
    requires |after| > MAX_SESSIONS ==> k == |sorted|
    ensures Evicts(before, after)
  {
    hide Ascending, Ids;
    forall id | id in before && before[id].state != Running
      ensures id in after ==> Survives(before, sorted, k, id)
    {
      TerminalSurvives(before, sorted, k, id);
    }
    forall d | d in before && d !in after
      ensures Dropped(before, sorted, k, d) && before[d].state != Running
    {
      OutIsDropped(before, sorted, k, d);
    }
    forall d, j | d in before && d !in after && j in after && after[j].state != Running
      ensures before[d].endedAt <= after[j].endedAt
    {
      DroppedEndedFirst(before, sorted, k, d, j);
    }
    if k == 0 {
      NothingDeleted(before, sorted);
    }
  }

  ghost predicate Survives(before: map<string, Info>, sorted: seq<Ended>, k: nat, id: string)
    requires id in before
  {
    exists p :: k <= p < |sorted| && sorted[p] == Ended(id, before[id].endedAt)
  }

  ghost predicate Dropped(before: map<string, Info>, sorted: seq<Ended>, k: nat, id: string)
    requires id in before && k <= |sorted|
  {
    exists p :: 0 <= p < k && sorted[p] == Ended(id, before[id].endedAt)
  }

  lemma TerminalSurvives(before: map<string, Info>, sorted: seq<Ended>, k: nat, id: string)
    requires id in before && before[id].state != Running && k <= |sorted|
    requires forall e :: e in sorted <==> IsTerminal(before, e)
    ensures id !in Ids(sorted[..k]) ==> Survives(before, sorted, k, id)
  {
    var e := Ended(id, before[id].endedAt);
    assert IsTerminal(before, e) && e in sorted;
    var p :| 0 <= p < |sorted| && sorted[p] == e;
    if p < k {
      assert e in sorted[..k] && e.id in Ids(sorted[..k]);
    }
  }

  lemma OutIsDropped(before: map<string, Info>, sorted: seq<Ended>, k: nat, d: string)
    requires d in before && k <= |sorted| && d in Ids(sorted[..k])
    requires forall e :: e in sorted ==> IsTerminal(before, e)
    ensures Dropped(before, sorted, k, d) && before[d].state != Running
  {
    var e :| e in sorted[..k] && e.id == d;
    var p :| 0 <= p < k && sorted[..k][p] == e;
    assert sorted[p] in sorted && IsTerminal(before, sorted[p]);
  }

  lemma DroppedEndedFirst(before: map<string, Info>, sorted: seq<Ended>, k: nat, d: string, j: string)
    requires d in before && j in before && k <= |sorted| && Ascending(sorted)
    requires Dropped(before, sorted, k, d) && Survives(before, sorted, k, j)
    ensures before[d].endedAt <= before[j].endedAt
  {
  }

  // ---- the registry ---------------------------------------------------------------------------

  class BuildSession {
    const id: string
    /** Its fields as a snapshot copies them. */
    var info: Info

    constructor (id: string)
      ensures this.id == id && info == FRESH
    {
      this.id, info := id, FRESH;
    }
  }

  /** Every session is filed under its own id, so no two keys share one, and looks as
      infos says. */
  ghost predicate Shows(m: map<string, BuildSession>, infos: map<string, Info>, objects: set<BuildSession>)
    reads objects
  {
    m.Keys == infos.Keys
    && forall id :: id in m ==> m[id] in objects && m[id].id == id && m[id].info == infos[id]
  }

  lemma ShowsMinus(m: map<string, BuildSession>, infos: map<string, Info>, ids: set<string>, objects: set<BuildSession>)
    requires Shows(m, infos, objects)
    ensures Shows(m - ids, infos - ids, objects)
  {
  }

  lemma ShowsPlus(m: map<string, BuildSession>, f: map<string, Info>,
                  n: map<string, BuildSession>, g: map<string, Info>, objects: set<BuildSession>)
    requires Shows(m, f, objects) && Shows(n, g, objects)
    ensures Shows(m + n, f + g, objects)
  {
  }

  class Registry {
    var sessions: map<string, BuildSession>
    /** Sessions dropped from the map; their holders may still look at them. */
    ghost var dropped: map<string, BuildSession>
    ghost var world: World

    /** Every session ever registered. */
    ghost var objects: set<BuildSession>

    ghost predicate Valid()
      reads this, objects
    {
      Shows(sessions, world.live, objects) && Shows(dropped, world.gone, objects) && Sound(world)
    }

    constructor ()
      ensures Valid() && world == EMPTY && objects == {}
    {
      sessions, dropped, world, objects := map[], map[], EMPTY, {};
    }

    method Finish(id: string, outcome: State, err: string, now: int)
      requires Valid() && outcome != Running
      modifies this`world, objects
      ensures Valid() && Step(old(world), Event.Finish(id, outcome, err, now), world)
    {
      ghost var w, e := world, Event.Finish(id, outcome, err, now);
      world := Touch(w, id, e);
      StepIsSound(w, e, world);
      assert id in w.live ==> Closed(w.live[id]);
      hide Sound, Step;
      if id !in sessions {
        return;
      }
      var s := sessions[id];
      if s.info.state != Running {
        return;
      }
      s.info := s.info.(state := outcome, err := err, endedAt := now);
      assert s.info.closes == 0;
      s.info := s.info.(closes := s.info.closes + 1);
    }

    method UpdateContainer(id: string, runtime: string, image: string)
      requires Valid()
      modifies this`world, objects
      ensures Valid() && Step(old(world), Event.UpdateContainer(id, runtime, image), world)
    {
      ghost var w, e := world, Event.UpdateContainer(id, runtime, image);
      world := Touch(w, id, e);
      StepIsSound(w, e, world);
      hide Sound, Step;
      if id in sessions {
        var s := sessions[id];
        s.info := s.info.(inContainer := true, runtime := runtime, image := image);
      }
    }

    method SetOutputDir(id: string, dir: string)
      requires Valid()
      modifies this`world, objects
      ensures Valid() && Step(old(world), Event.SetOutputDir(id, dir), world)
    {
      ghost var w, e := world, Event.SetOutputDir(id, dir);
      world := Touch(w, id, e);
      StepIsSound(w, e, world);
      hide Sound, Step;
      if id in sessions {
        var s := sessions[id];
        s.info := s.info.(outputDir := dir);
      }
    }

    /** Asks the build to stop; the session itself only ends when the build says so. */
    method Cancel(id: string) returns (known: bool)
      requires Valid()
      modifies this`world, objects
      ensures Valid() && Step(old(world), Event.Cancel(id), world)
      ensures known <==> id in old(world).live
    {
      ghost var w, e := world, Event.Cancel(id);
      world := Touch(w, id, e);
      StepIsSound(w, e, world);
      hide Sound, Step;
      known := id in sessions;
      if known {
        var s := sessions[id];
        s.info := s.info.(cancelled := true);
      }
    }

    /** A copy of the session as it is now. */
    method Get(id: string) returns (snapshot: Option<Info>)
      requires Valid()
      ensures snapshot == if id in world.live then Some(world.live[id]) else None
    {
      snapshot := None;
      if id in sessions {
        snapshot := Some(sessions[id].info);
      }
    }

    /** The finished sessions, in no particular order. */
    method Terminals() returns (terminals: array<Ended>)
      requires Shows(sessions, world.live, objects)
      ensures fresh(terminals) && DistinctIds(terminals[..])
      ensures forall e :: e in terminals[..] <==> IsTerminal(world.live, e)
    {
      var found: seq<Ended> := [];
      var todo := sessions.Keys;
      while todo != {}
        invariant todo <= sessions.Keys && DistinctIds(found) && forall e :: e in found ==> e.id !in todo
        invariant forall e :: e in found <==> e.id !in todo && IsTerminal(world.live, e)
        decreases todo
      {
        var id :| id in todo;
        todo := todo - {id};
        if sessions[id].info.state != Running {
          found := found + [Ended(id, sessions[id].info.endedAt)];
        }
      }
      terminals := new Ended[|found|](i requires 0 <= i < |found| => found[i]);
      assert terminals[..] == found;
    }

    /** The finished sessions, the one that ended first in front. */
    method SortedTerminals() returns (terminals: array<Ended>)
      requires Shows(sessions, world.live, objects)
      ensures fresh(terminals) && DistinctIds(terminals[..]) && Ascending(terminals[..])
      ensures forall e :: e in terminals[..] <==> IsTerminal(world.live, e)
    {
      hide DistinctIds, Ascending, IsTerminal, Shows;
      terminals := Terminals();
      ghost var found := terminals[..];
      SortByEnd(terminals);
      RearrangedIds(found, terminals[..]);
    }

    /** Deletes from the front of the list until few enough sessions are left. */
    method DeleteOldest(terminals: array<Ended>) returns (k: nat)
      requires DistinctIds(terminals[..]) && forall e :: e in terminals[..] ==> e.id in sessions
      requires |sessions| > MAX_SESSIONS
      modifies this`sessions
      ensures k <= terminals.Length && sessions == old(sessions) - Ids(terminals[..][..k])
      ensures |sessions| >= MAX_SESSIONS && (|sessions| > MAX_SESSIONS ==> k == terminals.Length)
    {
      k := 0;
      ghost var all, sorted := sessions, terminals[..];
      NothingDeleted(all, sorted);
      hide *;
      while k < terminals.Length && |sessions| > MAX_SESSIONS
        invariant 0 <= k <= terminals.Length
        invariant sessions == all - Ids(sorted[..k]) && |sessions| >= MAX_SESSIONS
      {
        assert sorted[k] == terminals[k];
        DeleteNext(all, sessions, sorted, k);
        sessions := sessions - {terminals[k].id};
        k := k + 1;
      }
    }

    /** Drops the sessions that ended first until few enough are left; gone names them. */
    method EvictOldestTerminal() returns (ghost gone: set<string>)
      requires Shows(sessions, world.live, objects)
      modifies this`sessions
      ensures sessions == old(sessions) - gone && Evicts(world.live, world.live - gone)
    {
      ghost var live, all := world.live, sessions;
      assert all.Keys == live.Keys;
      hide *;
      gone := {};
      if |sessions| <= MAX_SESSIONS {
        NothingDropped(all, live);
        return;
      }
      var terminals := SortedTerminals();
      ghost var sorted := terminals[..];
      TerminalsAreFiled(all, live, sorted);
      var k := DeleteOldest(terminals);
      gone := Ids(sorted[..k]);
      PrefixDrops(all, live, sessions, sorted, k);
    }

    method Insert(id: string) returns (s: BuildSession)
      requires Valid() && id !in world.live && id !in world.gone
      modifies this
      ensures fresh(s) && objects == old(objects) + {s} && sessions == old(sessions)[id := s] && dropped == old(dropped)
      ensures world == World(old(world).live[id := FRESH], old(world).gone)
      ensures Shows(sessions, world.live, objects) && Shows(dropped, world.gone, objects)
    {
      hide Sound;
      s := new BuildSession(id);
      objects := objects + {s};
      sessions := sessions[id := s];
      world := World(world.live[id := FRESH], world.gone);
    }

    /** A new running session, under an id not used before. */
    method Register(id: string) returns (s: BuildSession)
      requires Valid() && id !in world.live && id !in world.gone
      modifies this
      ensures Valid() && Step(old(world), Event.Register(id), world)
      ensures fresh(s) && id in sessions && sessions[id] == s
      ensures objects == old(objects) + {s}
    {
      ghost var w := world;
      assert Sound(w);
      s := Insert(id);
      ghost var added, all := world, sessions;
      hide *;
      ghost var gone := EvictOldestTerminal();
      RecordDropped(all, gone);
      DropIsStep(w, id, gone);
      StepIsSound(w, Event.Register(id), world);
      RunningIsKept(w, all, sessions, gone, id);
      NowValid();
    }

    ghost method RecordDropped(all: map<string, BuildSession>, gone: set<string>)
      requires Shows(all, world.live, objects) && Shows(dropped, world.gone, objects) && sessions == all - gone
      modifies this`world, this`dropped
      ensures Shows(sessions, world.live, objects) && Shows(dropped, world.gone, objects)
      ensures world == Drop(old(world), gone)
    {
      hide *;
      DropShows(all, sessions, dropped, world, gone, objects);
      dropped := dropped + Only(all, gone);
      world := Drop(world, gone);
    }

    lemma NowValid()
      requires Shows(sessions, world.live, objects) && Shows(dropped, world.gone, objects) && Sound(world)
      ensures Valid()
    {
    }
  }

  lemma DropIsStep(w: World, id: string, gone: set<string>)
    requires id !in w.live && id !in w.gone
    requires var live := w.live[id := FRESH]; Evicts(live, live - gone)
    ensures Step(w, Event.Register(id), Drop(World(w.live[id := FRESH], w.gone), gone))
  {
    hide Evicts;
    var added := World(w.live[id := FRESH], w.gone);
    assert Only(added.live, gone) == added.live - Drop(added, gone).live.Keys;
  }

  lemma NothingDropped(all: map<string, BuildSession>, live: map<string, Info>)
    requires all.Keys == live.Keys && |all| <= MAX_SESSIONS
    ensures all == all - {} && Evicts(live, live - {})
  {
    SameSize(all, live);
    NoneEvicted(live);
    assert live - {} == live;
  }

  lemma PrefixDrops(all: map<string, BuildSession>, live: map<string, Info>, left: map<string, BuildSession>,
                    sorted: seq<Ended>, k: nat)
    requires all.Keys == live.Keys && Ascending(sorted) && k <= |sorted| && forall e :: e in sorted <==> IsTerminal(live, e)
    requires left == all - Ids(sorted[..k])
    requires |all| > MAX_SESSIONS && |left| >= MAX_SESSIONS && (|left| > MAX_SESSIONS ==> k == |sorted|)
    ensures Evicts(live, live - Ids(sorted[..k]))
  {
    hide Evicts, IsTerminal, Ascending, Ids;
    SameSize(all, live);
    SameSize(left, live - Ids(sorted[..k]));
    PrefixEvicts(live, live - Ids(sorted[..k]), sorted, k);
  }

  lemma DropShows(all: map<string, BuildSession>, left: map<string, BuildSession>,
                  dropped: map<string, BuildSession>, w: World, gone: set<string>, objects: set<BuildSession>)
    requires Shows(all, w.live, objects) && Shows(dropped, w.gone, objects) && left == all - gone
    ensures Shows(left, Drop(w, gone).live, objects) && Shows(dropped + Only(all, gone), Drop(w, gone).gone, objects)
    ensures Drop(w, gone).live == w.live - gone
  {
    ShowsMinus(all, w.live, gone, objects);
    ShowsMinus(all, w.live, all.Keys - gone, objects);
    assert all.Keys == w.live.Keys;
    ShowsPlus(dropped, w.gone, Only(all, gone), Only(w.live, gone), objects);
    hide Shows;
  }

  function Only<V>(m: map<string, V>, ids: set<string>): map<string, V> {
    m - (m.Keys - ids)
  }

  function Drop(w: World, ids: set<string>): World {
    World(w.live - ids, w.gone + Only(w.live, ids))
  }

  lemma TerminalsAreFiled(m: map<string, BuildSession>, live: map<string, Info>, terminals: seq<Ended>)
    requires m.Keys == live.Keys && forall e :: e in terminals ==> IsTerminal(live, e)
    ensures forall e :: e in terminals ==> e.id in m
  {
  }

  lemma RunningIsKept(w: World, all: map<string, BuildSession>, left: map<string, BuildSession>, gone: set<string>,
                      id: string)
    requires var live := w.live[id := FRESH]; Evicts(live, live - gone)
    requires id in all && left == all - gone
    ensures id in left && left[id] == all[id]
  {
    assert id in w.live[id := FRESH] - gone;
  }

  lemma SameSize<V, W>(m: map<string, V>, n: map<string, W>)
    requires m.Keys == n.Keys
    ensures |m| == |n|
  {
    assert |m| == |m.Keys| && |n| == |n.Keys|;
  }

  lemma RemoveOne<V>(m: map<string, V>, k: string)
    requires k in m
    ensures |m - {k}| == |m| - 1
  {
    assert (m - {k}).Keys == m.Keys - {k};
    assert |m| == |m.Keys| && |m - {k}| == |(m - {k}).Keys|;
  }

  lemma NoneEvicted(m: map<string, Info>)
    requires |m| <= MAX_SESSIONS
    ensures Evicts(m, m)
  {
  }
}
