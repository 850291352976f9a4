/** What every run of index operations keeps, and what that gives the resolver and the
    downloader that work on the index afterwards. */
module AptRuns {
  import opened Text
  import opened DebVersion
  import opened AptIndex
  import opened AptResolver

  /** A run of index operations: entries added, stanzas of either phase flushed, other
      caches merged in. */
  datatype History =
    | Start
    | Added(prev: History, info: PackageInfo)
    | Flushed(prev: History, stanza: Stanza, dpkgStatus: bool)
    | MergedWith(left: History, right: History)

  function IndexOfRun(h: History): AptIndex.Index {
    match h
    case Start => EMPTY
    case Added(prev, info) => AddEntry(IndexOfRun(prev), info)
    case Flushed(prev, s, dpkg) => FlushStanza(IndexOfRun(prev), s, dpkg)
    case MergedWith(l, r) => MergeFrom(IndexOfRun(l), IndexOfRun(r))
  }

  predicate NamesOnly(ds: seq<string>) {
    forall d :: d in ds ==> ':' !in d
  }

  predicate InfoNamesOnly(e: PackageInfo) {
    NamesOnly(e.depends) && NamesOnly(e.preDepends)
  }

  /** Package names without colons (Debian Policy section 5.6.1); dependency lists given
      to AddEntry directly hold names only. */
  predicate NamesAreNames(h: History) {
    match h
    case Start => true
    case Added(prev, info) => NamesAreNames(prev) && ':' !in info.name && InfoNamesOnly(info)
    case Flushed(prev, s, _) => NamesAreNames(prev) && ':' !in s.pkgName
    case MergedWith(l, r) => NamesAreNames(l) && NamesAreNames(r)
  }

  ghost predicate EntriesNamesOnly(ix: AptIndex.Index) {
    forall k :: k in ix.entries ==> InfoNamesOnly(ix.entries[k])
  }

  lemma MergedStanzaNamesOnly(e: PackageInfo, s: Stanza, dpkg: bool)
    requires InfoNamesOnly(e)
    ensures InfoNamesOnly(MergePackageInfo(e, s, dpkg))
  {
    hide CompareDebVersion;
  }

  lemma MergedEntryNamesOnly(c: AptIndex.Index, from: AptIndex.Index, k: string)
    requires EntriesNamesOnly(c) && EntriesNamesOnly(from) && (k in c.entries || k in from.entries)
    ensures InfoNamesOnly(MergedEntry(c, from, k))
  {
    hide CompareDebVersion, NamesOnly, InfoArtifactsWin;
    assert k in c.entries ==> InfoNamesOnly(c.entries[k]);
    assert k in from.entries ==> InfoNamesOnly(from.entries[k]);
  }

  lemma RunNamesOnly(h: History)
    requires NamesAreNames(h)
    ensures EntriesNamesOnly(IndexOfRun(h))
  {
    hide MergePackageInfo, MergedEntry, InfoNamesOnly, FlushProvides;
    match h
    case Start =>
    case Added(prev, info) => RunNamesOnly(prev);
    case Flushed(prev, s, dpkg) =>
      RunNamesOnly(prev);
      var e := EntryOr(IndexOfRun(prev), EntryKey(s.pkgName, s.arch));
      BlankNamesOnly();
      assert InfoNamesOnly(e);
      MergedStanzaNamesOnly(e, s, dpkg);
    case MergedWith(l, r) =>
      RunNamesOnly(l);
      RunNamesOnly(r);
      forall k | k in IndexOfRun(l).entries || k in IndexOfRun(r).entries
        ensures InfoNamesOnly(MergedEntry(IndexOfRun(l), IndexOfRun(r), k))
      {
        MergedEntryNamesOnly(IndexOfRun(l), IndexOfRun(r), k);
      }
  }

  lemma BlankNamesOnly()
    ensures InfoNamesOnly(BLANK)
  {
  }

  /** After every run, keys match their entries, the secondary index is exact and every
      provider is stored. */
  lemma {:induction false} EveryRunIsCoherent(h: History)
    requires NamesAreNames(h)
    ensures Coherent(IndexOfRun(h))
  {
    hide FlushStanza, MergeFrom, AddEntry;
    match h
    case Start =>
    case Added(prev, info) =>
      EveryRunIsCoherent(prev);
      AddEntryKeepsCoherent(IndexOfRun(prev), info);
    case Flushed(prev, s, dpkg) =>
      EveryRunIsCoherent(prev);
      FlushKeepsCoherent(IndexOfRun(prev), s, dpkg);
    case MergedWith(l, r) =>
      EveryRunIsCoherent(l);
      EveryRunIsCoherent(r);
      MergeKeepsCoherent(IndexOfRun(l), IndexOfRun(r));
  }

  /** So every index a run builds is one the resolver's results hold for. */
  lemma EveryRunIsColonFree(h: History)
    requires NamesAreNames(h)
    ensures ColonFree(IndexOfRun(h))
  {
    EveryRunIsCoherent(h);
    RunNamesOnly(h);
    hide IndexOfRun, NamesAreNames;
    var ix := IndexOfRun(h);
    forall k, d | k in ix.entries && (d in ix.entries[k].preDepends || d in ix.entries[k].depends)
      ensures ':' !in d
    {
      assert InfoNamesOnly(ix.entries[k]);
    }
    forall v, p | v in ix.providers && p in ix.providers[v]
      ensures ':' !in p
    {
      assert Stored(ix.entries.Keys, p);
      var k :| k in ix.entries.Keys && BareName(k) == p;
    }
  }

  // ---- what a request finds in such an index -----------------------------------------------------

  /** A request finds an entry exactly when some entry carries its name, and the entry
      found carries it. */
  lemma RequestFindsExactly(ix: AptIndex.Index, host: string, n: Node)
    requires Coherent(ix) && ':' !in n.name
    ensures FindEntry(ix, host, n).Some? <==> exists k :: Carries(ix, k, n.name)
    ensures FindEntry(ix, host, n).Some? ==> Carries(ix, FindEntry(ix, host, n).value, n.name)
  {
    BeforeNothing(n.name, ':');
    ScanIsExact(ix, n.name);
    QualifiedBareName(n.name, host);
    QualifiedBareName(n.name, n.arch);
    hide Before, ScanByName, Qualified, EntryMatches;
    var r := FindEntry(ix, host, n);
    if r.Some? {
      CarriedIsBareName(ix, r.value);
    }
  }

  /** In a coherent index the provider a virtual request falls back to is always found. */
  lemma VirtualIsFound(ix: AptIndex.Index, host: string, n: Node, arch: string)
    requires Coherent(ix) && Resolve(ix, host, n).Virtual?
    ensures Resolve(ix, host, Node(Resolve(ix, host, n).provider, arch)).Found?
  {
    var p := Resolve(ix, host, n).provider;
    assert p in ix.providers[n.name];
    assert Stored(ix.entries.Keys, p);
    var k :| k in ix.entries.Keys && BareName(k) == p;
    CarriedIsBareName(ix, k);
    hide FindEntry, EntryMatches;
    RequestFindsExactly(ix, host, Node(p, arch));
  }

  /** An entry stored for the very architecture asked for is the one found; a package
      that serves foreign architectures is then taken from the host's entry, if any. */
  lemma OwnArchitectureWins(ix: AptIndex.Index, host: string, n: Node)
    requires EntryKey(n.name, n.arch) in ix.entries
    ensures var own, hosts := EntryKey(n.name, n.arch), EntryKey(n.name, host);
      var t := Resolve(ix, host, n);
      && t.Found?
      && (ix.entries[own].MultiArchForeign() && hosts in ix.entries ==> t.key == hosts)
      && (!ix.entries[own].MultiArchForeign() || hosts !in ix.entries ==> t.key == own)
  {
    hide EntryKey;
  }

  /** How well a key answers a request: the architecture asked for, the bare name, the
      host, and last any other. */
  function Preference(host: string, n: Node, k: string): nat {
    if k == EntryKey(n.name, n.arch) then 3
    else if k == n.name then 2
    else if k == n.name + ":" + host then 1
    else 0
  }

  /** Among the entries that carry the name a best one is found. */
  lemma BestEntryIsFound(ix: AptIndex.Index, host: string, n: Node, k: string)
    requires Coherent(ix) && ':' !in n.name && Carries(ix, k, n.name)
    ensures FindEntry(ix, host, n).Some? && Preference(host, n, k) <= Preference(host, n, FindEntry(ix, host, n).value)
  {
    RequestFindsExactly(ix, host, n);
    hide ScanByName, EntryKey;
  }

  /** The same for the lookup by name: the qualified name itself, the bare name, the
      host, and last any other. */
  function LookupPreference(host: string, name: string, k: string): nat {
    if ':' in name && k == name then 3
    else if k == Before(name, ':') then 2
    else if k == Before(name, ':') + ":" + host then 1
    else 0
  }

  lemma BestEntryIsLookedUp(ix: AptIndex.Index, host: string, name: string, k: string)
    requires Coherent(ix) && Carries(ix, k, Before(name, ':'))
    ensures Lookup(ix, host, name).Some? && Lookup(ix, host, name).value in ix.entries
    ensures LookupPreference(host, name, k) <= LookupPreference(host, name, Lookup(ix, host, name).value)
  {
    LookupIsExact(ix, host, name);
    hide Coherent, Before, Lookup, LookupPreference;
    LookupPrefers(ix, host, name, k);
  }

  lemma LookupPrefers(ix: AptIndex.Index, host: string, name: string, k: string)
    requires k in ix.entries && Lookup(ix, host, name).Some?
    ensures Lookup(ix, host, name).value in ix.entries
    ensures LookupPreference(host, name, k) <= LookupPreference(host, name, Lookup(ix, host, name).value)
  {
    hide Before, ScanByName;
  }

  /** An entry just added is what its key looks up, and no other entry has changed. */
  lemma AddedIsLookedUp(ix: AptIndex.Index, host: string, info: AptIndex.PackageInfo)
    requires Coherent(ix) && ':' !in info.name
    ensures var key, ix' := AptIndex.EntryKey(info.name, info.architecture), AptIndex.AddEntry(ix, info);
      && Lookup(ix', host, key) == Some(key) && key in ix'.entries && ix'.entries[key] == info
      && (forall k :: k != key ==> (k in ix'.entries <==> k in ix.entries) && (k in ix.entries ==> ix'.entries[k] == ix.entries[k]))
  {
    var key, ix' := AptIndex.EntryKey(info.name, info.architecture), AptIndex.AddEntry(ix, info);
    AptIndex.KeyGivesName(info.name, info.architecture);
    AptIndex.AddEntryKeepsCoherent(ix, info);
    assert Carries(ix', key, Before(key, ':'));
    BestEntryIsLookedUp(ix', host, key, key);
    hide Before, Coherent, Lookup, AptIndex.EntryKey, AptIndex.AddToBareName;
    assert LookupPreference(host, key, key) == if ':' in key then 3 else 2;
  }

  /** Every provider is named without blanks at the ends, as parsed names are. */
  ghost predicate ProvidersTrimmed(ix: AptIndex.Index) {
    forall v, p :: v in ix.providers && p in ix.providers[v] ==> p != "" && Trimmed(p)
  }

  /** An entry that carries the name, or the chosen provider's, is installed or listed. */
  ghost predicate Served(ix: AptIndex.Index, host: string, seeds: seq<string>, name: string)
    requires host != ""
  {
    exists k :: k in ix.entries && (ix.entries[k].installed || k in InstallList(ix, host, seeds))
      && (ix.entries[k].name == name || (Get(ix.providers, name) != [] && ix.entries[k].name == Get(ix.providers, name)[0]))
  }

  lemma FoundCarries(ix: AptIndex.Index, host: string, n: Node)
    requires Coherent(ix) && ':' !in n.name && Resolve(ix, host, n).Found?
    ensures Carries(ix, Resolve(ix, host, n).key, n.name)
  {
    RequestFindsExactly(ix, host, n);
    BeforeNothing(n.name, ':');
    var k := Resolve(ix, host, n).key;
    assert EntryMatches(k, ix.entries[k]);
    KeyGivesName(n.name, host);
    hide FindEntry, EntryKey, BareName, KeysMatch;
  }

  /** What a request that finds an entry leaves: the entry installed or listed. */
  lemma FoundIsServed(ix: AptIndex.Index, host: string, seeds: seq<string>, n: Node)
    requires host != "" && Reachable(ix, host, seeds, n) && Resolve(ix, host, n).Found?
    ensures var k := Resolve(ix, host, n).key; k in ix.entries && (ix.entries[k].installed || k in InstallList(ix, host, seeds))
  {
    var k := Resolve(ix, host, n).key;
    InstallListIsExact(ix, host, seeds, k);
    hide Reachable, InstallList, Resolve;
  }

  lemma ReachedIsServed(ix: AptIndex.Index, host: string, seeds: seq<string>, n: Node)
    requires host != "" && Coherent(ix) && ColonFree(ix) && ProvidersTrimmed(ix)
    requires Reachable(ix, host, seeds, n) && ':' !in n.name
    ensures Served(ix, host, seeds, n.name) || n.name in UnresolvedList(ix, host, seeds)
  {
    hide Reachable, InstallList, UnresolvedList, Resolve, Coherent, AsksFor;
    match Resolve(ix, host, n)
    case Missing =>
      UnresolvedListIsExact(ix, host, seeds, n.name);
    case Found(k, _) =>
      FoundIsServed(ix, host, seeds, n);
      FoundCarries(ix, host, n);
    case Virtual(p) =>
      ProviderIsServed(ix, host, seeds, n, p);
  }

  lemma ProviderIsServed(ix: AptIndex.Index, host: string, seeds: seq<string>, n: Node, p: string)
    requires host != "" && Coherent(ix) && ColonFree(ix) && ProvidersTrimmed(ix)
    requires Reachable(ix, host, seeds, n) && Resolve(ix, host, n) == Virtual(p)
    ensures Served(ix, host, seeds, n.name)
  {
    var next := Node(p, n.arch);
    FirstProvider(ix, host, n, p);
    TrimOfTrimmed(p);
    assert AsksFor(ix, host, n, next);
    hide Reachable, InstallList, Resolve, Coherent, AsksFor;
    ReachedExactly(ix, host, seeds, next);
    VirtualIsFound(ix, host, n, n.arch);
    FoundIsServed(ix, host, seeds, next);
    FoundCarries(ix, host, next);
  }

  lemma FirstProvider(ix: AptIndex.Index, host: string, n: Node, p: string)
    requires ColonFree(ix) && ProvidersTrimmed(ix) && Resolve(ix, host, n) == Virtual(p)
    ensures Get(ix.providers, n.name) != [] && Get(ix.providers, n.name)[0] == p
    ensures p != "" && Trimmed(p) && ':' !in p
  {
    hide FindEntry, Redirect;
    assert p in ix.providers[n.name];
  }

  /** Every dependency of a package listed, and of an installed one on the way to it, is
      served, or reported as unresolved. */
  lemma RequirementsAreSettled(ix: AptIndex.Index, host: string, seeds: seq<string>, n: Node, k: string, name: string)
    requires host != "" && Coherent(ix) && ColonFree(ix) && ProvidersTrimmed(ix)
    requires Reachable(ix, host, seeds, n) && Finds(ix, host, n, k) && Depends(ix, k, name)
    ensures Served(ix, host, seeds, name) || name in UnresolvedList(ix, host, seeds)
  {
    var arch := ChildArch(ix.entries[k].architecture, if TakenFromHost(ix, host, n) then host else n.arch);
    var next := Node(name, arch);
    DependsIsColonFree(ix, k, name);
    assert AsksFor(ix, host, n, next);
    hide Reachable, InstallList, UnresolvedList, Resolve, Coherent, AsksFor, ColonFree;
    ReachedExactly(ix, host, seeds, next);
    ReachedIsServed(ix, host, seeds, next);
  }

  lemma DependsIsColonFree(ix: AptIndex.Index, k: string, name: string)
    requires ColonFree(ix) && Depends(ix, k, name)
    ensures ':' !in name
  {
    var d :| (d in ix.entries[k].preDepends || d in ix.entries[k].depends) && Trim(d) == name;
    TrimKeepsOut(d, ':');
    hide Trim;
  }

  /** The unresolved list holds exactly the reachable names that no entry carries and no
      package provides. */
  lemma UnresolvedMeansAbsent(ix: AptIndex.Index, host: string, seeds: seq<string>, name: string)
    requires host != "" && Coherent(ix) && ':' !in name
    ensures name in UnresolvedList(ix, host, seeds) <==>
      (exists n :: Reachable(ix, host, seeds, n) && n.name == name)
      && (forall k :: !Carries(ix, k, name)) && (Get(ix.providers, name) == [] || Get(ix.providers, name)[0] == "")
  {
    UnresolvedListIsExact(ix, host, seeds, name);
    hide UnresolvedList, Reachable, FindEntry, Get, Carries;
    forall n: Node | n.name == name
      ensures Resolve(ix, host, n).Missing? <==>
        (forall k :: !Carries(ix, k, name)) && (Get(ix.providers, name) == [] || Get(ix.providers, name)[0] == "")
    {
      RequestFindsExactly(ix, host, n);
    }
  }

  // ---- downloading the closure ---------------------------------------------------------------

  /** What a download job is for: the name asked, and the entry it was found in. */
  datatype Job = Job(name: string, key: string)

  /** The requested name without its version constraint. */
  function JobName(pkg: string): string {
    Trim(if '(' in pkg then Trim(Before(pkg, '(')) else pkg)
  }

  /** One name: the entry found must have a file and a place to get it from. */
  function FindJob(ix: AptIndex.Index, host: string, pkg: string): Option<Job> {
    var name := JobName(pkg);
    var k := Lookup(ix, host, name);
    if k.None? || k.value !in ix.entries then None
    else
      var e := ix.entries[k.value];
      if e.filename == "" || e.baseURL == "" then None else Some(Job(name, k.value))
  }

  /** All names, or the first failure. */
  method ResolveDownloadJobs(ix: AptIndex.Index, host: string, pkgs: seq<string>) returns (jobs: Option<seq<Job>>)
    ensures jobs.Some? <==> forall p :: p in pkgs ==> FindJob(ix, host, p).Some?
    ensures jobs.Some? ==> |jobs.value| == |pkgs|
    ensures jobs.Some? ==> forall i :: 0 <= i < |pkgs| ==> FindJob(ix, host, pkgs[i]) == Some(jobs.value[i])
  {
    hide FindJob;
    var found: seq<Job> := [];
    for i := 0 to |pkgs|
      invariant |found| == i && forall j :: 0 <= j < i ==> FindJob(ix, host, pkgs[j]) == Some(found[j])
    {
      var job := FindJob(ix, host, pkgs[i]);
      if job.None? {
        assert pkgs[i] in pkgs;
        return None;
      }
      found := found + [job.value];
    }
    return Some(found);
  }

  function RebuiltName(e: PackageInfo): string {
    EntryKey(e.name, e.architecture)
  }

  /** The names rebuilt from resolved entries, in order. */
  method ClosureNames(ix: AptIndex.Index, keys: seq<string>) returns (names: seq<string>)
    requires forall k :: k in keys ==> k in ix.entries
    ensures |names| == |keys| && forall i :: 0 <= i < |keys| ==> names[i] == RebuiltName(ix.entries[keys[i]])
  {
    names := [];
    for i := 0 to |keys|
      invariant |names| == i && forall j :: 0 <= j < i ==> names[j] == RebuiltName(ix.entries[keys[j]])
    {
      var e := ix.entries[keys[i]];
      names := names + [if e.architecture == "" || e.architecture == ARCH_ALL then e.name else e.name + ":" + e.architecture];
    }
  }

  lemma JobNameExactly(pkg: string)
    ensures JobName(pkg) == pkg <==> '(' !in pkg && Trimmed(pkg)
  {
    hide Trim, Before, Trimmed;
    if '(' in pkg {
      TrimKeepsOut(Before(pkg, '('), '(');
      TrimKeepsOut(Trim(Before(pkg, '(')), '(');
    } else if Trimmed(pkg) {
      TrimOfTrimmed(pkg);
    }
  }

  /** A version constraint is cut off a name before it is looked up. */
  lemma ConstraintIsCut(name: string, constraint: string)
    requires Trimmed(name) && '(' !in name
    ensures JobName(name + " (" + constraint) == name
  {
    var front := name + " ";
    var s := front + ['('] + constraint;
    assert s == name + " (" + constraint;
    IndexAfter(front, '(', constraint);
    assert s[|front|] == '(' && s[..|front|] == front;
    TrimSpaceSuffix(name, ' ');
    TrimOfTrimmed(name);
    hide Trim, IndexOf;
  }

  /** The job made for a name is called by it and downloads an entry that carries it. */
  lemma JobIsForName(ix: AptIndex.Index, host: string, name: string)
    requires Coherent(ix) && Trimmed(name) && '(' !in name
    ensures var j := FindJob(ix, host, name);
      && (j.Some? ==> j.value.name == name && Carries(ix, j.value.key, Before(name, ':')))
      && (j.Some? ==> ix.entries[j.value.key].filename != "" && ix.entries[j.value.key].baseURL != "")
    ensures FindJob(ix, host, name).Some? ==> exists k :: Carries(ix, k, Before(name, ':'))
  {
    JobNameExactly(name);
    LookupIsExact(ix, host, name);
    hide JobName, Lookup, Before, Coherent;
  }

  /** A rebuilt name becomes a job for the very entry it came from exactly when that
      entry has a file and a base URL, and its key has no parenthesis and no blanks at
      its ends. */
  lemma RebuiltNameMakesJob(ix: AptIndex.Index, host: string, k: string)
    requires Coherent(ix) && k in ix.entries
    ensures FindJob(ix, host, RebuiltName(ix.entries[k])) == Some(Job(k, k))
       <==> ix.entries[k].filename != "" && ix.entries[k].baseURL != "" && '(' !in k && Trimmed(k)
    ensures '(' !in k && Trimmed(k) && (ix.entries[k].filename == "" || ix.entries[k].baseURL == "") ==>
      FindJob(ix, host, RebuiltName(ix.entries[k])) == None
  {
    assert EntryMatches(k, ix.entries[k]);
    JobNameExactly(k);
    RebuiltNameFindsEntry(ix, host, k);
    hide Lookup, JobName, EntryKey;
  }

  /** An entry that can be downloaded under the name rebuilt from it. */
  predicate Downloadable(ix: AptIndex.Index, k: string)
    requires k in ix.entries
  {
    ix.entries[k].filename != "" && ix.entries[k].baseURL != "" && '(' !in k && Trimmed(k)
  }

  lemma ListedAreStored(ix: AptIndex.Index, host: string, seeds: seq<string>)
    requires host != ""
    ensures forall k :: k in InstallList(ix, host, seeds) ==> k in ix.entries
  {
    hide InstallList, Reachable, Resolve;
    forall k | k in InstallList(ix, host, seeds)
      ensures k in ix.entries
    {
      InstallListIsExact(ix, host, seeds, k);
    }
  }

  /** Resolve, rebuild the names, look them up again: each listed entry is downloaded for
      itself, in the order of the list, exactly when all of them are downloadable. */
  method DownloadClosure(ix: AptIndex.Index, host: string, seeds: seq<string>)
    returns (resolved: seq<string>, unresolved: seq<string>, jobs: Option<seq<Job>>)
    requires host != "" && ColonFree(ix) && Coherent(ix)
    ensures resolved == InstallList(ix, host, seeds) && unresolved == UnresolvedList(ix, host, seeds)
    ensures forall k :: k in resolved ==> k in ix.entries
    ensures (jobs.Some? && |jobs.value| == |resolved| && forall i :: 0 <= i < |resolved| ==> jobs.value[i] == Job(resolved[i], resolved[i]))
       <==> forall k :: k in resolved ==> Downloadable(ix, k)
  {
    hide InstallList, UnresolvedList, ColonFree, Coherent, FindJob, Downloadable, RebuiltName;
    resolved, unresolved := ResolveDeps(ix, host, seeds);
    ListedAreStored(ix, host, seeds);
    jobs := Some([]);
    if |resolved| == 0 {
      return;
    }
    var names := ClosureNames(ix, resolved);
    jobs := ResolveDownloadJobs(ix, host, names);
    JobsAreOwn(ix, host, resolved, names, jobs);
  }

  lemma JobsAreOwn(ix: AptIndex.Index, host: string, keys: seq<string>, names: seq<string>, jobs: Option<seq<Job>>)
    requires Coherent(ix) && (forall k :: k in keys ==> k in ix.entries)
    requires |names| == |keys| && forall i :: 0 <= i < |keys| ==> names[i] == RebuiltName(ix.entries[keys[i]])
    requires jobs.Some? <==> forall n :: n in names ==> FindJob(ix, host, n).Some?
    requires jobs.Some? ==> |jobs.value| == |names| && forall i :: 0 <= i < |names| ==> FindJob(ix, host, names[i]) == Some(jobs.value[i])
    ensures (jobs.Some? && |jobs.value| == |keys| && forall i :: 0 <= i < |keys| ==> jobs.value[i] == Job(keys[i], keys[i]))
       <==> forall k :: k in keys ==> Downloadable(ix, k)
  {
    hide FindJob, RebuiltName, Coherent;
    forall i | 0 <= i < |keys|
      ensures FindJob(ix, host, names[i]) == Some(Job(keys[i], keys[i])) <==> Downloadable(ix, keys[i])
    {
      RebuiltNameMakesJob(ix, host, keys[i]);
    }
    hide Downloadable;
    if forall k :: k in keys ==> Downloadable(ix, k) {
      forall n | n in names
        ensures FindJob(ix, host, n).Some?
      {
        var i :| 0 <= i < |names| && names[i] == n;
        assert Downloadable(ix, keys[i]);
      }
    }
  }
}
