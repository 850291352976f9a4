/** Transitive dependency resolution over the apt index: what a (name, arch)
    request resolves to, which requests it leads to, and the visitor that walks
    them. */
module AptResolver {
  import opened Text
  import opened AptIndex
  import opened Dfs

  /** A request for a package name, with the architecture it inherits. */
  datatype Node = Node(name: string, arch: string)

  function KeyOf(n: Node): string {
    EntryKey(n.name, n.arch)
  }

  /** What a request comes down to: an entry and the architecture its own
      dependencies inherit, the first provider of a virtual name, or nothing. */
  datatype Target = Missing | Virtual(provider: string) | Found(key: string, arch: string)

  function FindEntry(ix: Index, host: string, n: Node): (r: Option<string>)
    ensures r.Some? ==> r.value in ix.entries
  {
    if KeyOf(n) in ix.entries then Some(KeyOf(n))
    else if n.name in ix.entries then Some(n.name)
    else if Qualified(n.name, host) in ix.entries then Some(Qualified(n.name, host))
    else ScanByName(ix, n.name)
  }

  /** A Multi-Arch: foreign package asked for another architecture is taken from
      the host's, when the host has one. */
  function Redirect(ix: Index, host: string, n: Node, k: string): (t: Target)
    requires k in ix.entries
    ensures t.Found? && t.key in ix.entries
  {
    var hostKey := EntryKey(n.name, host);
    if !ix.entries[k].MultiArchForeign() || n.arch == host || hostKey !in ix.entries then Found(k, n.arch)
    else Found(hostKey, host)
  }

  function InheritedArch(e: PackageInfo, arch: string): string {
    if e.architecture != "" && e.architecture != arch && e.architecture != ARCH_ALL then e.architecture else arch
  }

  function Resolve(ix: Index, host: string, n: Node): (t: Target)
    ensures t.Found? ==> t.key in ix.entries
  {
    var found := FindEntry(ix, host, n);
    if found.Some? then
      var t := Redirect(ix, host, n, found.value);
      Found(t.key, InheritedArch(ix.entries[t.key], t.arch))
    else
      var ps := Get(ix.providers, n.name);
      if |ps| > 0 && ps[0] != "" then Virtual(ps[0]) else Missing
  }

  /** A request as the visitor takes it: trimmed, defaulting to the host. */
  function Request(host: string, name: string, arch: string): Option<Node> {
    if Trim(name) == "" then None else Some(Node(Trim(name), if arch == "" then host else arch))
  }

  function Requests(host: string, names: seq<string>, arch: string): seq<Node> {
    if names == [] then []
    else
      var r := Request(host, names[|names| - 1], arch);
      Requests(host, names[..|names| - 1], arch) + (if r.Some? then [r.value] else [])
  }

  /** The requests a request leads to, in visiting order. */
  function Next(ix: Index, host: string, n: Node): seq<Node> {
    match Resolve(ix, host, n)
    case Missing => []
    case Virtual(p) => Requests(host, [p], n.arch)
    case Found(k, arch) => Requests(host, ix.entries[k].preDepends, arch) + Requests(host, ix.entries[k].depends, arch)
  }

  /** A seed: an optional ":arch" is split off, then a version constraint. */
  function SeedRequest(host: string, seed: string): Option<Node> {
    var s := Trim(seed);
    var i := IndexOf(s, ':');
    var arch := if i >= 0 then s[i + 1..] else "";
    var name := Before(s, ':');
    Request(host, if '(' in name then Trim(Before(name, '(')) else name, arch)
  }

  function SeedRequests(host: string, seeds: seq<string>): seq<Node> {
    if seeds == [] then []
    else
      var r := SeedRequest(host, seeds[|seeds| - 1]);
      SeedRequests(host, seeds[..|seeds| - 1]) + (if r.Some? then [r.value] else [])
  }

  lemma PlainName(name: string)
    requires Trimmed(name) && name != "" && ':' !in name && '(' !in name
    ensures Trim(name) == name && Before(name, ':') == name
  {
    TrimOfTrimmed(name);
    BeforeNothing(name, ':');
  }

  /** "name" asks for the host's package, "name:arch" for that of an architecture, and a
      version constraint without a colon is cut off. */
  lemma SeedsAsk(host: string, name: string, arch: string, constraint: string)
    requires Trimmed(name) && name != "" && ':' !in name && '(' !in name
    requires arch != "" && !IsSpace(arch[|arch| - 1])
    requires constraint != "" && constraint[|constraint| - 1] == ')' && ':' !in constraint
    ensures SeedRequest(host, name) == Some(Node(name, host))
    ensures SeedRequest(host, name + ":" + arch) == Some(Node(name, arch))
    ensures SeedRequest(host, name + " (" + constraint) == Some(Node(name, host))
  {
    SeedAlone(host, name);
    SeedWithArch(host, name, arch);
    SeedWithConstraint(host, name, constraint);
    hide *;
  }

  lemma SeedAlone(host: string, name: string)
    requires Trimmed(name) && name != "" && ':' !in name && '(' !in name
    ensures SeedRequest(host, name) == Some(Node(name, host))
  {
    PlainName(name);
    assert IndexOf(name, ':') < 0;
    hide Trim, Before, IndexOf;
  }

  lemma SeedWithArch(host: string, name: string, arch: string)
    requires Trimmed(name) && name != "" && ':' !in name && '(' !in name
    requires arch != "" && !IsSpace(arch[|arch| - 1])
    ensures SeedRequest(host, name + ":" + arch) == Some(Node(name, arch))
  {
    var s := name + [':'] + arch;
    assert s == name + ":" + arch;
    PlainName(name);
    TrimOfTrimmed(s);
    IndexAfter(name, ':', arch);
    assert s[..|name|] == name && s[|name| + 1..] == arch;
    assert Before(s, ':') == name;
    hide Trim, Before, IndexOf;
  }

  lemma SeedWithConstraint(host: string, name: string, constraint: string)
    requires Trimmed(name) && name != "" && ':' !in name && '(' !in name
    requires constraint != "" && constraint[|constraint| - 1] == ')' && ':' !in constraint
    ensures SeedRequest(host, name + " (" + constraint) == Some(Node(name, host))
  {
    var front := name + " ";
    var s := front + ['('] + constraint;
    assert s == name + " (" + constraint;
    PlainName(name);
    TrimOfTrimmed(s);
    BeforeNothing(s, ':');
    assert IndexOf(s, ':') < 0;
    IndexAfter(front, '(', constraint);
    assert s[..|front|] == front && Before(s, '(') == front;
    TrimSpaceSuffix(name, ' ');
    hide Trim, Before, IndexOf;
  }

  /** A colon in the constraint, as before an epoch, is taken for the one before an
      architecture. */
  lemma EpochInSeedIsArch(host: string, name: string, epoch: string, rest: string)
    requires Trimmed(name) && name != "" && ':' !in name && '(' !in name
    requires ':' !in epoch && rest != "" && rest[|rest| - 1] == ')'
    ensures SeedRequest(host, name + " (" + epoch + ":" + rest) == Some(Node(name, rest))
  {
    var front := name + " (" + epoch;
    var s := front + [':'] + rest;
    assert s == name + " (" + epoch + ":" + rest;
    PlainName(name);
    TrimOfTrimmed(s);
    assert ':' !in front;
    IndexAfter(front, ':', rest);
    assert s[..|front|] == front && s[|front| + 1..] == rest && Before(s, ':') == front;
    assert front == (name + " ") + ['('] + epoch;
    IndexAfter(name + " ", '(', epoch);
    assert front[..|name| + 1] == name + " " && Before(front, '(') == name + " ";
    TrimSpaceSuffix(name, ' ');
    hide Trim, Before, IndexOf;
  }

  // ---- the finite graph of requests ----------------------------------------

  /** Package names carry no colon (Debian Policy section 5.6.1): those of the
      dependency lists, and those of the providers. */
  ghost predicate ColonFree(ix: Index) {
    && (forall k, d :: k in ix.entries && (d in ix.entries[k].preDepends || d in ix.entries[k].depends) ==> ':' !in d)
    && (forall v, p :: v in ix.providers && p in ix.providers[v] ==> ':' !in p)
  }

  ghost function Names(ix: Index, roots: seq<Node>): set<string> {
    (set k, d | k in ix.entries && d in ix.entries[k].preDepends :: Trim(d))
    + (set k, d | k in ix.entries && d in ix.entries[k].depends :: Trim(d))
    + (set v, p | v in ix.providers && p in ix.providers[v] :: Trim(p))
    + (set r | r in roots :: r.name)
  }

  ghost function Archs(ix: Index, host: string, roots: seq<Node>): set<string> {
    {host} + (set k | k in ix.entries :: ix.entries[k].architecture) + (set r | r in roots :: r.arch)
  }

  /** Every request the search could ever make, with what it leads to. */
  ghost function GraphOf(ix: Index, host: string, roots: seq<Node>): Graph<Node> {
    map n | n in (set name, arch | name in Names(ix, roots) && arch in Archs(ix, host, roots) && arch != "" :: Node(name, arch))
      :: Next(ix, host, n)
  }

  lemma InGraph(ix: Index, host: string, roots: seq<Node>, n: Node)
    ensures n in GraphOf(ix, host, roots) <==> n.name in Names(ix, roots) && n.arch in Archs(ix, host, roots) && n.arch != ""
    ensures n in GraphOf(ix, host, roots) ==> GraphOf(ix, host, roots)[n] == Next(ix, host, n)
  {
    assert n == Node(n.name, n.arch);
  }

  lemma {:induction false} RequestsAre(host: string, names: seq<string>, arch: string, n: Node)
    requires n in Requests(host, names, arch)
    ensures exists d :: d in names && n == Node(Trim(d), if arch == "" then host else arch)
    decreases |names|
  {
    hide Trim;
    var init := names[..|names| - 1];
    if n in Requests(host, init, arch) {
      RequestsAre(host, init, arch, n);
    } else {
      assert names[|names| - 1] in names;
    }
  }

  lemma SuccessorInGraph(ix: Index, host: string, roots: seq<Node>, n: Node, d: Node)
    requires host != "" && n in GraphOf(ix, host, roots) && d in Next(ix, host, n)
    ensures d in GraphOf(ix, host, roots)
  {
    hide Trim, GraphOf, Requests, FindEntry, Redirect;
    InGraph(ix, host, roots, n);
    InGraph(ix, host, roots, d);
    match Resolve(ix, host, n)
    case Missing =>
    case Virtual(p) =>
      RequestsAre(host, [p], n.arch, d);
      assert p in ix.providers[n.name];
    case Found(k, arch) =>
      FoundArch(ix, host, n);
      var e := ix.entries[k];
      if d in Requests(host, e.preDepends, arch) {
        RequestsAre(host, e.preDepends, arch, d);
      } else {
        RequestsAre(host, e.depends, arch, d);
      }
  }

  lemma FoundArch(ix: Index, host: string, n: Node)
    requires Resolve(ix, host, n).Found?
    ensures var t := Resolve(ix, host, n);
            t.arch == n.arch || t.arch == host || t.arch == ix.entries[t.key].architecture
  {
    hide FindEntry;
  }

  lemma GraphIsClosed(ix: Index, host: string, roots: seq<Node>)
    requires host != ""
    ensures Closed(GraphOf(ix, host, roots))
  {
    hide GraphOf, Next;
    forall n, d | n in GraphOf(ix, host, roots) && d in GraphOf(ix, host, roots)[n]
      ensures d in GraphOf(ix, host, roots)
    {
      InGraph(ix, host, roots, n);
      SuccessorInGraph(ix, host, roots, n, d);
    }
  }

  lemma {:induction false} SeedRequestsAre(host: string, seeds: seq<string>)
    requires host != ""
    ensures forall r :: r in SeedRequests(host, seeds) ==> r.arch != "" && ':' !in r.name
  {
    if seeds != [] {
      SeedRequestsAre(host, seeds[..|seeds| - 1]);
      SeedIsColonFree(host, seeds[|seeds| - 1]);
      hide SeedRequest;
    }
  }

  lemma SeedIsColonFree(host: string, seed: string)
    requires host != ""
    ensures SeedRequest(host, seed).Some? ==> SeedRequest(host, seed).value.arch != "" && ':' !in SeedRequest(host, seed).value.name
  {
    var name := Before(Trim(seed), ':');
    BeforeKeepsOut(name, '(', ':');
    TrimKeepsOut(Before(name, '('), ':');
    TrimKeepsOut(name, ':');
    TrimKeepsOut(Trim(Before(name, '(')), ':');
    hide Trim, Before;
  }

  lemma BeforeKeepsOut(s: string, c: char, d: char)
    requires d !in s
    ensures d !in Before(s, c)
  {
  }

  lemma RootsInGraph(ix: Index, host: string, roots: seq<Node>)
    requires forall r :: r in roots ==> r.arch != ""
    ensures forall r :: r in roots ==> r in GraphOf(ix, host, roots)
  {
    hide GraphOf;
    forall r | r in roots
      ensures r in GraphOf(ix, host, roots)
    {
      InGraph(ix, host, roots, r);
    }
  }

  /** All requests have colon-free names, so visited keys tell them apart. */
  lemma GraphIsColonFree(ix: Index, host: string, roots: seq<Node>, n: Node)
    requires ColonFree(ix) && (forall r :: r in roots ==> ':' !in r.name)
    requires n in GraphOf(ix, host, roots)
    ensures ':' !in n.name && n.arch != ""
  {
    InGraph(ix, host, roots, n);
    hide GraphOf, Trim;
    forall s: string | ':' !in s
      ensures ':' !in Trim(s)
    {
      TrimKeepsOut(s, ':');
    }
  }

  // ---- what the search hands back ------------------------------------------

  /** The entry a request adds to the install list, unless it is installed. */
  function Emits(ix: Index, host: string): Node -> Option<string> {
    n => var t := Resolve(ix, host, n);
         if t.Found? && !ix.entries[t.key].installed then Some(t.key) else None
  }

  /** The name a request reports as unresolvable. */
  function Reports(ix: Index, host: string): Node -> Option<string> {
    n => if Resolve(ix, host, n).Missing? then Some(n.name) else None
  }

  ghost predicate Reachable(ix: Index, host: string, seeds: seq<string>, n: Node) {
    var roots := SeedRequests(host, seeds);
    exists r :: r in roots && Reaches(GraphOf(ix, host, roots), r, n)
  }

  ghost function Finished(ix: Index, host: string, seeds: seq<string>): seq<Node>
    requires host != ""
  {
    var roots := SeedRequests(host, seeds);
    GraphIsClosed(ix, host, roots);
    SeedRequestsAre(host, seeds);
    RootsInGraph(ix, host, roots);
    Run(GraphOf(ix, host, roots), roots).done
  }

  /** The install list and the unresolved list, as the search leaves them. */
  ghost function InstallList(ix: Index, host: string, seeds: seq<string>): seq<string>
    requires host != ""
  {
    Collect(Finished(ix, host, seeds), Emits(ix, host))
  }

  ghost function UnresolvedList(ix: Index, host: string, seeds: seq<string>): seq<string>
    requires host != ""
  {
    Collect(Finished(ix, host, seeds), Reports(ix, host))
  }

  lemma FinishedIsReachable(ix: Index, host: string, seeds: seq<string>)
    requires host != ""
    ensures Distinct(Finished(ix, host, seeds))
    ensures forall n :: n in Finished(ix, host, seeds) <==> Reachable(ix, host, seeds, n)
  {
    hide GraphOf, SeedRequests;
    var roots := SeedRequests(host, seeds);
    GraphIsClosed(ix, host, roots);
    SeedRequestsAre(host, seeds);
    RootsInGraph(ix, host, roots);
    RunIsExact(GraphOf(ix, host, roots), roots);
  }

  /** The install list holds exactly the not-installed entries that some request
      reachable from the seeds resolves to. */
  lemma InstallListIsExact(ix: Index, host: string, seeds: seq<string>, k: string)
    requires host != ""
    ensures k in InstallList(ix, host, seeds)
       <==> exists n :: Reachable(ix, host, seeds, n) && Finds(ix, host, n, k) && !ix.entries[k].installed
  {
    hide Resolve;
    FinishedIsReachable(ix, host, seeds);
    CollectIsExact(Finished(ix, host, seeds), Emits(ix, host), k);
    hide Finished, Reachable;
    assert forall n :: Emits(ix, host)(n) == Some(k) <==> Finds(ix, host, n, k) && !ix.entries[k].installed;
  }

  /** The request comes down to the entry under k. */
  predicate Finds(ix: Index, host: string, n: Node, k: string) {
    Resolve(ix, host, n).Found? && Resolve(ix, host, n).key == k && k in ix.entries
  }

  // ---- which requests are made -----------------------------------------------

  /** The entry under k depends on this name, beforehand or not. */
  ghost predicate Depends(ix: Index, k: string, name: string) {
    k in ix.entries && name != "" && exists d :: (d in ix.entries[k].preDepends || d in ix.entries[k].depends) && Trim(d) == name
  }

  /** The entry first found serves any architecture, and the host has the package too. */
  predicate TakenFromHost(ix: Index, host: string, n: Node) {
    var k := FindEntry(ix, host, n);
    k.Some? && ix.entries[k.value].MultiArchForeign() && n.arch != host && EntryKey(n.name, host) in ix.entries
  }

  /** A concrete architecture, or the inherited one. */
  function ChildArch(architecture: string, inherited: string): string {
    if architecture == "" || architecture == ARCH_ALL then inherited else architecture
  }

  /** The request m makes the program ask for n: n is a dependency of the entry m finds,
      for that entry's architecture or the inherited one, or the provider of a name that
      has no entry. */
  ghost predicate AsksFor(ix: Index, host: string, m: Node, n: Node) {
    var t := Resolve(ix, host, m);
    if t.Found? then
      Depends(ix, t.key, n.name)
      && n.arch == ChildArch(ix.entries[t.key].architecture, if TakenFromHost(ix, host, m) then host else m.arch)
    else t.Virtual? && n.name == Trim(t.provider) != "" && n.arch == m.arch
  }

  lemma {:induction false} AskedByNames(host: string, names: seq<string>, arch: string, n: Node)
    ensures n in Requests(host, names, arch)
       <==> n.name != "" && n.arch == (if arch == "" then host else arch) && exists d :: d in names && Trim(d) == n.name
    decreases |names|
  {
    hide Trim;
    if names != [] {
      var init, last := names[..|names| - 1], names[|names| - 1];
      AskedByNames(host, init, arch, n);
      assert names == init + [last];
    }
  }

  lemma FoundForArch(ix: Index, host: string, m: Node)
    requires Resolve(ix, host, m).Found?
    ensures var t := Resolve(ix, host, m);
      t.arch == ChildArch(ix.entries[t.key].architecture, if TakenFromHost(ix, host, m) then host else m.arch)
  {
    hide FindEntry, EntryKey;
  }

  lemma NextAreAsked(ix: Index, host: string, m: Node, n: Node)
    requires host != "" && m.arch != ""
    ensures n in Next(ix, host, m) <==> AsksFor(ix, host, m, n)
  {
    hide Resolve, Trim, Requests, TakenFromHost;
    match Resolve(ix, host, m)
    case Missing =>
    case Virtual(p) =>
      AskedByNames(host, [p], m.arch, n);
    case Found(k, arch) =>
      FoundForArch(ix, host, m);
      assert arch != "";
      AskedByNames(host, ix.entries[k].preDepends, arch, n);
      AskedByNames(host, ix.entries[k].depends, arch, n);
  }

  /** A request is made exactly when it is a seed or a request made before asks for it. */
  lemma ReachedExactly(ix: Index, host: string, seeds: seq<string>, n: Node)
    requires host != ""
    ensures Reachable(ix, host, seeds, n) <==>
      n in SeedRequests(host, seeds) || exists m :: Reachable(ix, host, seeds, m) && AsksFor(ix, host, m, n)
  {
    hide Reachable, SeedRequests, AsksFor;
    if n in SeedRequests(host, seeds) {
      SeedIsReached(ix, host, seeds, n);
    } else if Reachable(ix, host, seeds, n) {
      var m := Asker(ix, host, seeds, n);
    }
    forall m | Reachable(ix, host, seeds, m) && AsksFor(ix, host, m, n)
      ensures Reachable(ix, host, seeds, n)
    {
      AskedIsReached(ix, host, seeds, m, n);
    }
  }

  lemma SeedIsReached(ix: Index, host: string, seeds: seq<string>, n: Node)
    requires host != "" && n in SeedRequests(host, seeds)
    ensures Reachable(ix, host, seeds, n)
  {
    SeedRequestsAre(host, seeds);
    RootsInGraph(ix, host, SeedRequests(host, seeds));
    hide GraphOf, SeedRequests;
    ReachesSelf(GraphOf(ix, host, SeedRequests(host, seeds)), n);
  }

  lemma AskedIsReached(ix: Index, host: string, seeds: seq<string>, m: Node, n: Node)
    requires host != "" && Reachable(ix, host, seeds, m) && AsksFor(ix, host, m, n)
    ensures Reachable(ix, host, seeds, n)
  {
    var g, roots := GraphOf(ix, host, SeedRequests(host, seeds)), SeedRequests(host, seeds);
    ReachableInGraph(ix, host, seeds, m);
    GraphIsClosed(ix, host, roots);
    InGraph(ix, host, roots, m);
    NextAreAsked(ix, host, m, n);
    hide GraphOf, SeedRequests, AsksFor, Next;
    var r :| r in roots && Reaches(g, r, m);
    ReachesStep(g, r, m, n);
  }

  lemma Asker(ix: Index, host: string, seeds: seq<string>, n: Node) returns (m: Node)
    requires host != "" && Reachable(ix, host, seeds, n) && n !in SeedRequests(host, seeds)
    ensures Reachable(ix, host, seeds, m) && AsksFor(ix, host, m, n)
  {
    var g, roots := GraphOf(ix, host, SeedRequests(host, seeds)), SeedRequests(host, seeds);
    hide GraphOf, SeedRequests, AsksFor, Next;
    var r :| r in roots && Reaches(g, r, n);
    m := LastStepTo(g, r, n);
    InGraph(ix, host, roots, m);
    NextAreAsked(ix, host, m, n);
  }

  /** An entry is listed once for every reachable request that resolves to it, so
      more than once when requests of different architectures fall back to it. */
  lemma ListedOncePerRequest(ix: Index, host: string, seeds: seq<string>, k: string)
    requires host != ""
    ensures multiset(InstallList(ix, host, seeds))[k] == |Emitters(Finished(ix, host, seeds), Emits(ix, host), k)|
  {
    hide Resolve, GraphOf, SeedRequests;
    var roots := SeedRequests(host, seeds);
    GraphIsClosed(ix, host, roots);
    SeedRequestsAre(host, seeds);
    RootsInGraph(ix, host, roots);
    RunIsExact(GraphOf(ix, host, roots), roots);
    CollectCounts(Finished(ix, host, seeds), Emits(ix, host), k);
  }

  /** The unresolved list holds exactly the reachable names with neither an entry
      nor a provider. */
  lemma UnresolvedListIsExact(ix: Index, host: string, seeds: seq<string>, name: string)
    requires host != ""
    ensures name in UnresolvedList(ix, host, seeds)
       <==> exists n :: Reachable(ix, host, seeds, n) && n.name == name && Resolve(ix, host, n).Missing?
  {
    FinishedIsReachable(ix, host, seeds);
    CollectIsExact(Finished(ix, host, seeds), Reports(ix, host), name);
    hide Finished, Reachable, Resolve;
  }

  /** Along any chain of requests out of an emitted one, the far end's listing stands
      before the listing made by the request the chain starts from, unless something on
      the chain leads back. */
  lemma InstallListIsOrdered(ix: Index, host: string, seeds: seq<string>, path: seq<Node>)
    requires host != ""
    requires IsPath(GraphOf(ix, host, SeedRequests(host, seeds)), path) && |path| > 1
    requires Reachable(ix, host, seeds, path[0])
    requires Emits(ix, host)(path[0]).Some? && Emits(ix, host)(path[|path| - 1]).Some?
    ensures ListedBefore(Finished(ix, host, seeds), Emits(ix, host), path[|path| - 1], path[0])
         || exists i :: 0 < i < |path| && Reaches(GraphOf(ix, host, SeedRequests(host, seeds)), path[i], path[0])
  {
    hide GraphOf, SeedRequests, Resolve;
    var roots := SeedRequests(host, seeds);
    GraphIsClosed(ix, host, roots);
    SeedRequestsAre(host, seeds);
    RootsInGraph(ix, host, roots);
    FinishedIsReachable(ix, host, seeds);
    RunListsInOrder(GraphOf(ix, host, roots), roots, Emits(ix, host), path);
  }

  /** Everything that a request on no cycle reaches is listed before its own listing. */
  lemma InstallListIsTopological(ix: Index, host: string, seeds: seq<string>, u: Node, v: Node)
    requires host != "" && OffCycle(GraphOf(ix, host, SeedRequests(host, seeds)), u)
    requires Reachable(ix, host, seeds, u) && Reaches(GraphOf(ix, host, SeedRequests(host, seeds)), u, v) && u != v
    requires Emits(ix, host)(u).Some? && Emits(ix, host)(v).Some?
    ensures ListedBefore(Finished(ix, host, seeds), Emits(ix, host), v, u)
  {
    hide GraphOf, SeedRequests, Resolve;
    var roots := SeedRequests(host, seeds);
    GraphIsClosed(ix, host, roots);
    SeedRequestsAre(host, seeds);
    RootsInGraph(ix, host, roots);
    FinishedIsReachable(ix, host, seeds);
    RunListsTopologically(GraphOf(ix, host, roots), roots, Emits(ix, host), u, v);
  }

  /** v is a dependency of u's package, taken directly or through one virtual name w. */
  predicate DependsOn(ix: Index, host: string, u: Node, w: Node, v: Node) {
    w in Next(ix, host, u) && (v == w || (Resolve(ix, host, w).Virtual? && Next(ix, host, w) == [v]))
  }

  /** A dependency, taken directly or through one virtual name, is listed before the
      listing of the request that asks for it unless it leads back to that request. */
  lemma DependencyComesFirst(ix: Index, host: string, seeds: seq<string>, u: Node, w: Node, v: Node)
    requires host != "" && Reachable(ix, host, seeds, u) && DependsOn(ix, host, u, w, v)
    requires Emits(ix, host)(u).Some? && Emits(ix, host)(v).Some?
    ensures ListedBefore(Finished(ix, host, seeds), Emits(ix, host), v, u)
         || Reaches(GraphOf(ix, host, SeedRequests(host, seeds)), v, u)
  {
    var g := GraphOf(ix, host, SeedRequests(host, seeds));
    hide SeedRequests, Emits, Resolve, Finished, GraphOf, Next, Reachable;
    ReachableInGraph(ix, host, seeds, u);
    StepInGraph(ix, host, seeds, u, w);
    if v == w {
      assert IsPath(g, [u, w]);
      InstallListIsOrdered(ix, host, seeds, [u, w]);
    } else {
      assert v in Next(ix, host, w);
      StepInGraph(ix, host, seeds, w, v);
      assert IsPath(g, [u, w, v]);
      InstallListIsOrdered(ix, host, seeds, [u, w, v]);
      if Reaches(g, w, u) {
        EmitterIsNotVirtual(ix, host, u, w);
        OnlyWayOut(g, w, v, u);
      }
    }
  }

  /** Every single listing, the first of its package or a later one, was made by some
      reachable request, and the dependencies of that request stand before it, each
      unless it leads back, the request then lying on a cycle. */
  lemma EveryListingIsOrdered(ix: Index, host: string, seeds: seq<string>, m: nat) returns (u: Node)
    requires host != "" && m < |InstallList(ix, host, seeds)|
    ensures Reachable(ix, host, seeds, u) && Emits(ix, host)(u) == Some(InstallList(ix, host, seeds)[m])
    ensures forall w, v :: DependsOn(ix, host, u, w, v) && Emits(ix, host)(v).Some? ==>
      StandsBefore(InstallList(ix, host, seeds), Emits(ix, host)(v).value, m)
      || LeadsBack(GraphOf(ix, host, SeedRequests(host, seeds)), v, u)
  {
    var done := Finished(ix, host, seeds);
    FinishedIsReachable(ix, host, seeds);
    hide Finished, Resolve, GraphOf, SeedRequests, Reachable, DependsOn, Emits;
    var i := PlacedBySome(done, m, Emits(ix, host));
    u := done[i];
    PlaceHolds(done, i, Emits(ix, host));
    forall w, v | DependsOn(ix, host, u, w, v) && Emits(ix, host)(v).Some?
      ensures StandsBefore(InstallList(ix, host, seeds), Emits(ix, host)(v).value, m)
           || LeadsBack(GraphOf(ix, host, SeedRequests(host, seeds)), v, u)
    {
      DependencyComesFirst(ix, host, seeds, u, w, v);
      if ListedBefore(done, Emits(ix, host), v, u) {
        ListedBeforePlace(done, Emits(ix, host), v, i);
      } else {
        WayBackIsCycle(ix, host, seeds, u, w, v);
      }
    }
  }

  /** v leads back to u, which therefore lies on a cycle. */
  ghost predicate LeadsBack(g: Graph<Node>, v: Node, u: Node) {
    Reaches(g, v, u) && !OffCycle(g, u)
  }

  lemma WayBackIsCycle(ix: Index, host: string, seeds: seq<string>, u: Node, w: Node, v: Node)
    requires host != "" && Reachable(ix, host, seeds, u) && DependsOn(ix, host, u, w, v)
    requires Reaches(GraphOf(ix, host, SeedRequests(host, seeds)), v, u)
    ensures !OffCycle(GraphOf(ix, host, SeedRequests(host, seeds)), u)
  {
    hide SeedRequests, Resolve, GraphOf, Next, Reachable;
    var g := GraphOf(ix, host, SeedRequests(host, seeds));
    ReachableInGraph(ix, host, seeds, u);
    StepInGraph(ix, host, seeds, u, w);
    if v != w {
      assert v in Next(ix, host, w);
      StepReaches(g, w, v, u);
    }
  }

  lemma StepInGraph(ix: Index, host: string, seeds: seq<string>, u: Node, w: Node)
    requires host != "" && u in GraphOf(ix, host, SeedRequests(host, seeds)) && w in Next(ix, host, u)
    ensures var g := GraphOf(ix, host, SeedRequests(host, seeds));
            w in g && g[u] == Next(ix, host, u) && g[w] == Next(ix, host, w)
  {
    hide SeedRequests, Next;
    InGraph(ix, host, SeedRequests(host, seeds), u);
    SuccessorInGraph(ix, host, SeedRequests(host, seeds), u, w);
    InGraph(ix, host, SeedRequests(host, seeds), w);
    hide GraphOf;
  }

  lemma EmitterIsNotVirtual(ix: Index, host: string, u: Node, w: Node)
    requires Emits(ix, host)(u).Some? && Resolve(ix, host, w).Virtual?
    ensures u != w
  {
    hide Resolve;
  }

  lemma ReachableInGraph(ix: Index, host: string, seeds: seq<string>, n: Node)
    requires Reachable(ix, host, seeds, n)
    ensures n in GraphOf(ix, host, SeedRequests(host, seeds))
  {
    hide GraphOf, SeedRequests;
    var g, roots := GraphOf(ix, host, SeedRequests(host, seeds)), SeedRequests(host, seeds);
    var r :| r in roots && Reaches(g, r, n);
    var path :| Connects(g, path, r, n);
  }

  // ---- the visitor ---------------------------------------------------------

  /** The closure that walks the dependencies: it marks visited keys and appends
      to the two result lists. `p` is the search it has done so far. */
  class DepVisitor {
    const ix: Index
    const host: string
    ghost const roots: seq<Node>
    var visited: set<string>
    var order: seq<string>
    var unres: seq<string>
    ghost var p: Progress<Node>

    /** The marked keys are those of the search, and these lists its output. */
    ghost predicate Holds(order: seq<string>, unres: seq<string>)
      reads this`visited, this`p
    {
      && host != "" && ColonFree(ix)
      && (forall r :: r in roots ==> r.arch != "" && ':' !in r.name)
      && p.seen <= GraphOf(ix, host, roots).Keys
      && (forall n :: n in GraphOf(ix, host, roots) ==> (KeyOf(n) in visited <==> n in p.seen))
      && order == Collect(p.done, Emits(ix, host))
      && unres == Collect(p.done, Reports(ix, host))
    }

    ghost predicate Valid()
      reads this
    {
      host != "" && Holds(order, unres)
    }

    constructor (ix: Index, host: string, ghost roots: seq<Node>)
      requires host != "" && ColonFree(ix) && forall r :: r in roots ==> r.arch != "" && ':' !in r.name
      ensures Valid() && p == Start() && this.ix == ix && this.host == host && this.roots == roots
    {
      this.ix, this.host, this.roots := ix, host, roots;
      visited, order, unres, p := {}, [], [], Start();
    }

    lemma Output()
      requires Valid()
      ensures order == Collect(p.done, Emits(ix, host)) && unres == Collect(p.done, Reports(ix, host))
    {
    }

    ghost predicate CanAsk(r: Option<Node>) {
      r.Some? ==> r.value in GraphOf(ix, host, roots)
    }

    /** The search after one more request, or none. */
    ghost function After(r: Option<Node>, q: Progress<Node>): (t: Progress<Node>)
      requires host != "" && CanAsk(r)
      ensures q.seen <= t.seen
    {
      GraphIsClosed(ix, host, roots);
      if r.None? then q else Dfs.Visit(GraphOf(ix, host, roots), r.value, q)
    }

    ghost function AfterAll(rs: seq<Node>, q: Progress<Node>): (t: Progress<Node>)
      requires host != "" && forall r :: r in rs ==> r in GraphOf(ix, host, roots)
      ensures q.seen <= t.seen
    {
      GraphIsClosed(ix, host, roots);
      Dfs.VisitAll(GraphOf(ix, host, roots), rs, q)
    }

    /** Mark a new request. */
    method Mark(ghost n: Node, key: string)
      requires Valid() && n in GraphOf(ix, host, roots) && key == KeyOf(n)
      modifies this`visited, this`p
      ensures Valid() && p == old(p).(seen := old(p).seen + {n})
    {
      hide GraphOf, EntryKey, Collect;
      visited := visited + {key};
      p := p.(seen := p.seen + {n});
      forall m | m in GraphOf(ix, host, roots)
        ensures KeyOf(m) == key <==> m == n
      {
        GraphIsColonFree(ix, host, roots, m);
        GraphIsColonFree(ix, host, roots, n);
        if KeyOf(m) == key {
          KeyInjective(m.name, m.arch, n.name, n.arch);
        }
      }
    }

    method Seen(ghost n: Node, key: string) returns (seen: bool)
      requires Valid() && n in GraphOf(ix, host, roots) && key == KeyOf(n)
      ensures seen <==> n in p.seen
    {
      return key in visited;
    }

    /** Note that a request is finished, having appended what it adds. */
    ghost method Finish(n: Node, order0: seq<string>, unres0: seq<string>)
      requires host != "" && Holds(order0, unres0)
      requires order == order0 + (if Emits(ix, host)(n).Some? then [Emits(ix, host)(n).value] else [])
      requires unres == unres0 + (if Reports(ix, host)(n).Some? then [Reports(ix, host)(n).value] else [])
      modifies this`p
      ensures Valid() && p == old(p).(done := old(p).done + [n])
    {
      hide GraphOf, Collect, Resolve, KeyOf;
      CollectSnoc(p.done, n, Emits(ix, host));
      CollectSnoc(p.done, n, Reports(ix, host));
      p := p.(done := p.done + [n]);
    }

    method Visit(name0: string, arch0: string)
      requires Valid() && CanAsk(Request(host, name0, arch0))
      modifies this`visited, this`order, this`unres, this`p
      ensures Valid() && p == After(Request(host, name0, arch0), old(p))
      decreases GraphOf(ix, host, roots).Keys - p.seen, 0
    {
      hide GraphOf, Collect, Trim, EntryKey, Holds, FindEntry, Resolve;
      var name := Trim(name0);
      if name == "" {
        return;
      }
      var arch := if arch0 == "" then host else arch0;
      ghost var n := Node(name, arch);
      var key := EntryKey(name, arch);
      var seen := Seen(n, key);
      if seen {
        return;
      }
      InGraph(ix, host, roots, n);
      GraphIsClosed(ix, host, roots);
      Mark(n, key);
      var found := FindEntry(ix, host, Node(name, arch));
      if found.None? {
        VisitVirtual(name, arch);
      } else {
        VisitFound(name, arch, found.value);
      }
    }

    /** No entry: follow the first provider, or report the name. */
    method VisitVirtual(name: string, arch: string)
      requires Valid() && Node(name, arch) in GraphOf(ix, host, roots) && FindEntry(ix, host, Node(name, arch)).None?
      modifies this`visited, this`order, this`unres, this`p
      ensures Valid() && p == Done(Node(name, arch), old(p))
      decreases GraphOf(ix, host, roots).Keys - p.seen, 3
    {
      hide GraphOf, Collect, Requests, Holds, FindEntry, Get, Redirect, InheritedArch;
      ghost var n, marked := Node(name, arch), p;
      var providers := Get(ix.providers, name);
      GraphIsClosed(ix, host, roots);
      InGraph(ix, host, roots, n);
      if |providers| > 0 && providers[0] != "" {
        ghost var r := Request(host, providers[0], arch);
        RequestOne(host, providers[0], arch);
        if r.Some? {
          VisitOne(GraphOf(ix, host, roots), r.value, marked);
        }
        Visit(providers[0], arch);
        assert p == AfterAll(Next(ix, host, n), marked);
        Finish(n, order, unres);
      } else {
        ghost var unres0 := unres;
        unres := unres + [name];
        Finish(n, order, unres0);
      }
    }

    /** An entry: walk its dependencies, then list it unless it is installed. */
    method VisitFound(name: string, arch0: string, key: string)
      requires Valid() && Node(name, arch0) in GraphOf(ix, host, roots) && FindEntry(ix, host, Node(name, arch0)) == Some(key)
      modifies this`visited, this`order, this`unres, this`p
      ensures Valid() && p == Done(Node(name, arch0), old(p))
      decreases GraphOf(ix, host, roots).Keys - p.seen, 3
    {
      hide GraphOf, Collect, Requests, Holds, FindEntry, Get, Redirect, InheritedArch;
      ghost var n := Node(name, arch0);
      GraphIsClosed(ix, host, roots);
      InGraph(ix, host, roots, n);
      var t := Redirect(ix, host, Node(name, arch0), key);
      var info := ix.entries[t.key];
      var arch := InheritedArch(info, t.arch);
      VisitDeps(info, arch);
      ghost var order0 := order;
      if !info.installed {
        order := order + [t.key];
      }
      Finish(n, order0, unres);
    }

    /** The search once the successors of a marked request have been visited and
        the request is finished. */
    ghost function Done(n: Node, q: Progress<Node>): (t: Progress<Node>)
      requires host != "" && n in GraphOf(ix, host, roots)
      ensures q.seen <= t.seen
    {
      GraphIsClosed(ix, host, roots);
      var r := Dfs.VisitAll(GraphOf(ix, host, roots), GraphOf(ix, host, roots)[n], q);
      r.(done := r.done + [n])
    }

    method VisitEach(names: seq<string>, arch: string)
      requires Valid() && forall r :: r in Requests(host, names, arch) ==> r in GraphOf(ix, host, roots)
      modifies this`visited, this`order, this`unres, this`p
      ensures Valid() && p == AfterAll(Requests(host, names, arch), old(p))
      decreases GraphOf(ix, host, roots).Keys - p.seen, 1
    {
      hide GraphOf, Collect, KeyOf, Request, ColonFree, Resolve, Holds;
      var i := 0;
      GraphIsClosed(ix, host, roots);
      assert names[..0] == [];
      while i < |names|
        invariant 0 <= i <= |names| && Valid() && old(p).seen <= p.seen
        invariant forall r :: r in Requests(host, names[..i], arch) ==> r in GraphOf(ix, host, roots)
        invariant p == AfterAll(Requests(host, names[..i], arch), old(p))
      {
        RequestsUpTo(host, names, arch, i);
        ghost var r := Request(host, names[i], arch);
        if r.Some? {
          VisitAllSnoc(GraphOf(ix, host, roots), Requests(host, names[..i], arch), r.value, old(p));
        }
        ghost var rs, before := Requests(host, names[..i], arch), p;
        Visit(names[i], arch);
        assert r.Some? ==> p == AfterAll(rs + [r.value], old(p));
        assert r.None? ==> p == before && rs + [] == rs;
        i := i + 1;
      }
      assert names[..i] == names;
    }

    method VisitDeps(info: PackageInfo, arch: string)
      requires Valid()
      requires forall r :: r in Requests(host, info.preDepends, arch) + Requests(host, info.depends, arch) ==> r in GraphOf(ix, host, roots)
      modifies this`visited, this`order, this`unres, this`p
      ensures Valid() && p == AfterAll(Requests(host, info.preDepends, arch) + Requests(host, info.depends, arch), old(p))
      decreases GraphOf(ix, host, roots).Keys - p.seen, 2
    {
      hide GraphOf, Collect, KeyOf, Requests, ColonFree, Resolve, Holds;
      GraphIsClosed(ix, host, roots);
      VisitEach(info.preDepends, arch);
      VisitEach(info.depends, arch);
      VisitAllAppend(GraphOf(ix, host, roots), Requests(host, info.preDepends, arch), Requests(host, info.depends, arch), old(p));
    }
  }

  lemma NoSeeds(host: string, seeds: seq<string>)
    ensures SeedRequests(host, seeds[..0]) == []
  {
  }

  method SplitSeed(host: string, seed0: string) returns (seed: string, arch: string)
    ensures Request(host, seed, arch) == SeedRequest(host, seed0)
  {
    hide Trim;
    seed, arch := Trim(seed0), "";
    var j := IndexOf(seed, ':');
    if j >= 0 {
      arch := seed[j + 1..];
      seed := seed[..j];
    }
    var k := IndexOf(seed, '(');
    if k >= 0 {
      seed := Trim(seed[..k]);
    }
  }

  method ResolveDeps(ix: Index, host: string, seeds: seq<string>) returns (order: seq<string>, unres: seq<string>)
    requires host != "" && ColonFree(ix)
    ensures order == InstallList(ix, host, seeds) && unres == UnresolvedList(ix, host, seeds)
  {
    hide GraphOf, Collect, Request, ColonFree, Resolve, DepVisitor.Holds, SeedRequest, SeedRequests;
    ghost var roots := SeedRequests(host, seeds);
    SeedRequestsAre(host, seeds);
    RootsInGraph(ix, host, roots);
    GraphIsClosed(ix, host, roots);
    var visitor := new DepVisitor(ix, host, roots);
    var i := 0;
    NoSeeds(host, seeds);
    while i < |seeds|
      invariant 0 <= i <= |seeds| && visitor.Valid()
      invariant forall r :: r in SeedRequests(host, seeds[..i]) ==> r in GraphOf(ix, host, roots)
      invariant visitor.p == visitor.AfterAll(SeedRequests(host, seeds[..i]), Start())
    {
      var seed, arch := SplitSeed(host, seeds[i]);
      SeedsUpTo(host, seeds, i);
      ghost var r, rs, before := Request(host, seed, arch), SeedRequests(host, seeds[..i]), visitor.p;
      if r.Some? {
        VisitAllSnoc(GraphOf(ix, host, roots), rs, r.value, Start());
      }
      visitor.Visit(seed, arch);
      assert r.Some? ==> visitor.p == visitor.AfterAll(rs + [r.value], Start());
      assert r.None? ==> visitor.p == before && rs + [] == rs;
      i := i + 1;
    }
    assert seeds[..i] == seeds;
    visitor.Output();
    return visitor.order, visitor.unres;
  }

  lemma SeedsUpTo(host: string, seeds: seq<string>, i: nat)
    requires i < |seeds|
    ensures var r := SeedRequest(host, seeds[i]);
            SeedRequests(host, seeds[..i + 1]) == SeedRequests(host, seeds[..i]) + (if r.Some? then [r.value] else [])
    ensures SeedRequests(host, seeds[..i + 1]) <= SeedRequests(host, seeds)
    ensures SeedRequest(host, seeds[i]).Some? ==> SeedRequest(host, seeds[i]).value in SeedRequests(host, seeds)
  {
    hide SeedRequest;
    assert seeds[..i + 1][..i] == seeds[..i];
    SeedsPrefix(host, seeds, i + 1);
    var r := SeedRequest(host, seeds[i]);
    if r.Some? {
      var k := |SeedRequests(host, seeds[..i])|;
      assert SeedRequests(host, seeds[..i + 1])[k] == r.value;
      assert SeedRequests(host, seeds)[k] == r.value;
    }
  }

  lemma {:induction false} SeedsPrefix(host: string, seeds: seq<string>, i: nat)
    requires i <= |seeds|
    ensures SeedRequests(host, seeds[..i]) <= SeedRequests(host, seeds)
    decreases |seeds|
  {
    hide SeedRequest;
    if i == |seeds| {
      assert seeds[..i] == seeds;
    } else {
      var init := seeds[..|seeds| - 1];
      assert seeds[..i] == init[..i];
      SeedsPrefix(host, init, i);
    }
  }

  lemma RequestOne(host: string, name: string, arch: string)
    ensures Requests(host, [name], arch) == if Request(host, name, arch).Some? then [Request(host, name, arch).value] else []
  {
    hide Request;
    assert [name][..0] == [];
  }

  lemma RequestsUpTo(host: string, names: seq<string>, arch: string, i: nat)
    requires i < |names|
    ensures var r := Request(host, names[i], arch);
            Requests(host, names[..i + 1], arch) == Requests(host, names[..i], arch) + (if r.Some? then [r.value] else [])
    ensures Requests(host, names[..i + 1], arch) <= Requests(host, names, arch)
    ensures Request(host, names[i], arch).Some? ==> Request(host, names[i], arch).value in Requests(host, names, arch)
  {
    hide Request;
    assert names[..i + 1][..i] == names[..i];
    RequestsPrefix(host, names, arch, i + 1);
    var r := Request(host, names[i], arch);
    if r.Some? {
      var k := |Requests(host, names[..i], arch)|;
      assert Requests(host, names[..i + 1], arch)[k] == r.value;
      assert Requests(host, names, arch)[k] == r.value;
    }
  }

  lemma {:induction false} RequestsPrefix(host: string, names: seq<string>, arch: string, i: nat)
    requires i <= |names|
    ensures Requests(host, names[..i], arch) <= Requests(host, names, arch)
    decreases |names|
  {
    hide Request;
    if i == |names| {
      assert names[..i] == names;
    } else {
      var init := names[..|names| - 1];
      assert names[..i] == init[..i];
      RequestsPrefix(host, init, arch, i);
    }
  }
}
