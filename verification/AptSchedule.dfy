/** Order independence of index loading: files are parsed into private caches and
    merged, and the newest version wins however the stanzas are split up. */
module AptSchedule {
  import opened Text
  import opened DebVersion
  import opened AptIndex

  /** Any mix of stanza flushes (apt-list phase) and cache merges. */
  datatype Schedule =
    | Fresh
    | Flush(prev: Schedule, stanza: Stanza)
    | Merge(left: Schedule, right: Schedule)

  function Build(p: Schedule): Index {
    match p
    case Fresh => EMPTY
    case Flush(prev, s) => FlushStanza(Build(prev), s, false)
    case Merge(l, r) => MergeFrom(Build(l), Build(r))
  }

  function Stanzas(p: Schedule): seq<Stanza> {
    match p
    case Fresh => []
    case Flush(prev, s) => Stanzas(prev) + [s]
    case Merge(l, r) => Stanzas(l) + Stanzas(r)
  }

  /** s is one of the stanzas kept under this key. */
  predicate Feeds(ss: seq<Stanza>, key: string, s: Stanza) {
    s in ss && s.pkgName != "" && EntryKey(s.pkgName, s.arch) == key
  }

  /** No versioned stanza of this key is newer than v. */
  ghost predicate NewestIs(ss: seq<Stanza>, key: string, v: string) {
    forall s :: Feeds(ss, key, s) && s.version != "" ==> CompareDebVersion(s.version, v) <= 0
  }

  /** What the entry under a key says about the stanzas that fed it. */
  ghost predicate Summarises(e: Option<PackageInfo>, ss: seq<Stanza>, key: string) {
    && (e.Some? <==> exists s :: Feeds(ss, key, s))
    && (e.Some? ==>
      && (e.value.hasCandidate <==> exists s :: Feeds(ss, key, s) && s.version != "")
      && (e.value.essential <==> exists s :: Feeds(ss, key, s) && s.essential)
      && (e.value.hasCandidate <==> e.value.version != "")
      && (e.value.version != "" ==> exists s :: Feeds(ss, key, s) && s.version == e.value.version)
      && NewestIs(ss, key, e.value.version))
  }

  function EntryAt(ix: Index, key: string): Option<PackageInfo> {
    if key in ix.entries then Some(ix.entries[key]) else None
  }

  // ---- one flush -----------------------------------------------------------

  lemma NewestRises(ss: seq<Stanza>, key: string, v: string, w: string)
    requires NewestIs(ss, key, v) && CompareDebVersion(v, w) <= 0
    ensures NewestIs(ss, key, w)
  {
    forall s | Feeds(ss, key, s) && s.version != ""
      ensures CompareDebVersion(s.version, w) <= 0
    {
      VersionChain(s.version, v, w);
    }
  }

  function Merged(e: Option<PackageInfo>, s: Stanza): PackageInfo {
    MergePackageInfo(if e.Some? then e.value else BLANK, s, false)
  }

  lemma FlushVersion(e: Option<PackageInfo>, s: Stanza, ss: seq<Stanza>, key: string)
    requires Summarises(e, ss, key) && Feeds([s], key, s)
    ensures NewestIs(ss + [s], key, Merged(e, s).version)
  {
    var w := Merged(e, s).version;
    VersionSwap(w, w);
    if e.Some? {
      var v := e.value.version;
      VersionSwap(s.version, v);
      VersionSwap(v, v);
      if v != "" {
        NewestRises(ss, key, v, w);
      }
    }
    forall t | Feeds(ss + [s], key, t) && t.version != ""
      ensures CompareDebVersion(t.version, w) <= 0
    {
      assert t == s || Feeds(ss, key, t);
    }
  }

  lemma FlushSummarises(e: Option<PackageInfo>, s: Stanza, ss: seq<Stanza>, key: string)
    requires Summarises(e, ss, key) && Feeds([s], key, s)
    ensures Summarises(Some(Merged(e, s)), ss + [s], key)
  {
    hide CompareDebVersion, ParseDepends, EntryKey;
    FlushVersion(e, s, ss, key);
    assert Feeds(ss + [s], key, s);
    assert forall t :: Feeds(ss + [s], key, t) <==> t == s || Feeds(ss, key, t);
  }

  lemma FlushElsewhere(e: Option<PackageInfo>, s: Stanza, ss: seq<Stanza>, key: string)
    requires Summarises(e, ss, key) && !Feeds([s], key, s)
    ensures Summarises(e, ss + [s], key)
  {
    assert s in [s];
    assert forall t :: Feeds(ss + [s], key, t) <==> Feeds(ss, key, t);
  }

  // ---- one merge -----------------------------------------------------------

  lemma MergeVersion(e: PackageInfo, i: PackageInfo, ss: seq<Stanza>, ts: seq<Stanza>, key: string)
    requires Summarises(Some(e), ss, key) && Summarises(Some(i), ts, key)
    ensures NewestIs(ss + ts, key, MergeEntryFields(e, i).version)
  {
    var v, w, r := e.version, i.version, MergeEntryFields(e, i).version;
    VersionSwap(w, v);
    VersionSwap(r, r);
    if v != "" && w != "" {
      NewestRises(ss, key, v, r);
      NewestRises(ts, key, w, r);
    }
    forall t | Feeds(ss + ts, key, t) && t.version != ""
      ensures CompareDebVersion(t.version, r) <= 0
    {
      assert Feeds(ss, key, t) || Feeds(ts, key, t);
    }
  }

  lemma MergeSummarises(e: PackageInfo, i: PackageInfo, ss: seq<Stanza>, ts: seq<Stanza>, key: string)
    requires Summarises(Some(e), ss, key) && Summarises(Some(i), ts, key)
    ensures Summarises(Some(MergeEntryFields(e, i)), ss + ts, key)
  {
    hide CompareDebVersion, EntryKey;
    MergeVersion(e, i, ss, ts, key);
    assert forall t :: Feeds(ss + ts, key, t) <==> Feeds(ss, key, t) || Feeds(ts, key, t);
  }

  lemma MergeOneSided(e: Option<PackageInfo>, ss: seq<Stanza>, ts: seq<Stanza>, key: string)
    requires Summarises(e, ss, key) && Summarises(None, ts, key)
    ensures Summarises(e, ss + ts, key) && Summarises(e, ts + ss, key)
  {
    assert forall t :: Feeds(ss + ts, key, t) <==> Feeds(ss, key, t) || Feeds(ts, key, t);
    assert forall t :: Feeds(ts + ss, key, t) <==> Feeds(ss, key, t) || Feeds(ts, key, t);
  }

  // ---- every schedule ------------------------------------------------------

  /** After any schedule an entry exists exactly when a stanza has its key, is a
      candidate exactly when one of them has a version, is essential exactly when
      one of them is, and carries the newest of their versions. */
  lemma {:induction false} NewestVersionWins(p: Schedule, key: string)
    ensures Summarises(EntryAt(Build(p), key), Stanzas(p), key)
  {
    hide CompareDebVersion, MergePackageInfo, MergeEntryFields, FlushProvides, AddToBareName, NewKeys, Repeat, EntryKey;
    match p
    case Fresh =>
    case Flush(prev, s) =>
      NewestVersionWins(prev, key);
      var e := EntryAt(Build(prev), key);
      if Feeds([s], key, s) {
        FlushSummarises(e, s, Stanzas(prev), key);
      } else {
        assert s in [s];
        FlushElsewhere(e, s, Stanzas(prev), key);
      }
    case Merge(l, r) =>
      NewestVersionWins(l, key);
      NewestVersionWins(r, key);
      var e, i := EntryAt(Build(l), key), EntryAt(Build(r), key);
      if e.Some? && i.Some? {
        MergeSummarises(e.value, i.value, Stanzas(l), Stanzas(r), key);
      } else if e.Some? {
        MergeOneSided(e, Stanzas(l), Stanzas(r), key);
      } else {
        MergeOneSided(i, Stanzas(r), Stanzas(l), key);
      }
  }

  /** Two schedules over the same stanzas agree on every entry's existence,
      candidacy and essential flag, and on its version up to equivalence. */
  lemma ScheduleDoesNotMatter(p: Schedule, q: Schedule, key: string)
    requires forall s :: s in Stanzas(p) <==> s in Stanzas(q)
    ensures var e, f := EntryAt(Build(p), key), EntryAt(Build(q), key);
      && e.Some? == f.Some?
      && (e.Some? ==>
        && e.value.hasCandidate == f.value.hasCandidate
        && e.value.essential == f.value.essential
        && CompareDebVersion(e.value.version, f.value.version) == 0)
  {
    hide Build, Stanzas, CompareDebVersion, EntryKey;
    NewestVersionWins(p, key);
    NewestVersionWins(q, key);
    var e, f := EntryAt(Build(p), key), EntryAt(Build(q), key);
    assert forall s :: Feeds(Stanzas(p), key, s) <==> Feeds(Stanzas(q), key, s);
    VersionSwap("", "");
    if e.Some? && e.value.version != "" {
      var s :| Feeds(Stanzas(p), key, s) && s.version == e.value.version;
      var t :| Feeds(Stanzas(q), key, t) && t.version == f.value.version;
      VersionSwap(s.version, t.version);
    }
  }

  /** Every schedule over colon-free package names keeps the indexes coherent. */
  lemma {:induction false} ScheduleKeepsCoherent(p: Schedule)
    requires forall s :: s in Stanzas(p) ==> ':' !in s.pkgName
    ensures Coherent(Build(p))
  {
    match p
    case Fresh =>
    case Flush(prev, s) =>
      assert s in Stanzas(p);
      ScheduleKeepsCoherent(prev);
      FlushKeepsCoherent(Build(prev), s, false);
    case Merge(l, r) =>
      ScheduleKeepsCoherent(l);
      ScheduleKeepsCoherent(r);
      MergeKeepsCoherent(Build(l), Build(r));
  }

  // ---- artifacts come together ---------------------------------------------

  /** Every stanza of this key is of a concrete architecture, and every versioned
      one carries the full set of artifact fields. */
  ghost predicate Complete(ss: seq<Stanza>, key: string) {
    forall s :: Feeds(ss, key, s) ==>
      && s.arch != "" && s.arch != ARCH_ALL
      && (s.version != "" ==> s.filename != "" && s.sha256 != "" && s.size > 0 && s.baseURL != "")
  }

  predicate SameArtifacts(e: PackageInfo, s: Stanza) {
    e.version == s.version && e.filename == s.filename && e.sha256 == s.sha256 && e.size == s.size && e.baseURL == s.baseURL
  }

  /** The artifact fields are all those of one stanza, or all blank. */
  ghost predicate ArtifactsFromOne(e: PackageInfo, ss: seq<Stanza>, key: string) {
    && e.architecture != "" && e.architecture != ARCH_ALL
    && if e.version == "" then e.filename == "" && e.sha256 == "" && e.size == 0 && e.baseURL == "" && e.depends == [] && e.preDepends == []
       else exists s :: Feeds(ss, key, s) && SameArtifacts(e, s)
  }

  lemma FlushArtifacts(e: Option<PackageInfo>, s: Stanza, ss: seq<Stanza>, key: string)
    requires e.Some? ==> ArtifactsFromOne(e.value, ss, key)
    requires Feeds([s], key, s) && Complete(ss + [s], key)
    ensures ArtifactsFromOne(Merged(e, s), ss + [s], key)
  {
    assert Feeds(ss + [s], key, s);
    assert forall t :: Feeds(ss, key, t) ==> Feeds(ss + [s], key, t);
  }

  lemma MergeArtifacts(e: PackageInfo, i: PackageInfo, ss: seq<Stanza>, ts: seq<Stanza>, key: string)
    requires ArtifactsFromOne(e, ss, key) && ArtifactsFromOne(i, ts, key) && Complete(ss + ts, key)
    ensures ArtifactsFromOne(MergeEntryFields(e, i), ss + ts, key)
  {
    assert forall t :: Feeds(ss, key, t) || Feeds(ts, key, t) ==> Feeds(ss + ts, key, t);
  }

  lemma {:induction false} ArtifactsFollow(p: Schedule, key: string)
    requires Complete(Stanzas(p), key) && key in Build(p).entries
    ensures ArtifactsFromOne(Build(p).entries[key], Stanzas(p), key)
  {
    match p
    case Fresh =>
    case Flush(prev, s) =>
      var ss := Stanzas(prev);
      assert forall t :: Feeds(ss, key, t) ==> Feeds(ss + [s], key, t);
      if key in Build(prev).entries {
        ArtifactsFollow(prev, key);
      }
      if Feeds([s], key, s) {
        FlushArtifacts(EntryAt(Build(prev), key), s, ss, key);
      } else {
        assert s in [s];
      }
    case Merge(l, r) =>
      var ss, ts := Stanzas(l), Stanzas(r);
      assert forall t :: Feeds(ss, key, t) || Feeds(ts, key, t) ==> Feeds(ss + ts, key, t);
      if key in Build(l).entries {
        ArtifactsFollow(l, key);
      }
      if key in Build(r).entries {
        ArtifactsFollow(r, key);
      }
      if key in Build(l).entries && key in Build(r).entries {
        MergeArtifacts(Build(l).entries[key], Build(r).entries[key], ss, ts, key);
      }
  }

  /** Version, Filename, SHA256, Size and BaseURL of a candidate come together
      from one stanza of newest version. */
  lemma ArtifactsAreCoherent(p: Schedule, key: string)
    requires Complete(Stanzas(p), key) && key in Build(p).entries && Build(p).entries[key].hasCandidate
    ensures exists s :: Feeds(Stanzas(p), key, s) && SameArtifacts(Build(p).entries[key], s)
                     && NewestIs(Stanzas(p), key, s.version)
  {
    NewestVersionWins(p, key);
    ArtifactsFollow(p, key);
  }

  // ---- what depends on the order of the stanzas -----------------------------------

  /** One registration of pkg for every item that names v. */
  function Registrations(items: seq<string>, pkg: string, v: string): seq<string> {
    if items == [] then []
    else
      var init := Registrations(items[..|items| - 1], pkg, v);
      if ProvideName(items[|items| - 1]) == v then init + [pkg] else init
  }

  function RegisteredBy(s: Stanza, v: string): seq<string> {
    if s.pkgName == "" || s.providesList == "" then [] else Registrations(Split(s.providesList, ','), s.pkgName, v)
  }

  function Registered(ss: seq<Stanza>, v: string): seq<string> {
    if ss == [] then [] else Registered(ss[..|ss| - 1], v) + RegisteredBy(ss[|ss| - 1], v)
  }

  lemma {:induction false} RegisteredAppend(a: seq<Stanza>, b: seq<Stanza>, v: string)
    ensures Registered(a + b, v) == Registered(a, v) + Registered(b, v)
  {
    hide RegisteredBy;
    if b == [] {
      assert a + b == a;
    } else {
      assert (a + b)[..|a + b| - 1] == a + b[..|b| - 1];
      RegisteredAppend(a, b[..|b| - 1], v);
    }
  }

  lemma {:induction false} AddProvidersAt(m: map<string, seq<string>>, items: seq<string>, pkg: string, v: string)
    requires v != ""
    ensures Get(AddProviders(m, items, pkg), v) == Get(m, v) + Registrations(items, pkg, v)
    decreases |items|
  {
    hide ProvideName;
    if items != [] {
      AddProvidersAt(m, items[..|items| - 1], pkg, v);
    }
  }

  /** The providers of a capability are the registrations of all stanzas, in their order,
      through whatever private caches they came. */
  lemma {:induction false} ProvidersInOrder(p: Schedule, v: string)
    requires v != ""
    ensures Get(Build(p).providers, v) == Registered(Stanzas(p), v)
  {
    hide AddProviders, Registrations, MergePackageInfo, MergedEntry, AddToBareName, Repeat, NewKeys, EntryKey, ProvideName;
    match p
    case Fresh =>
    case Flush(prev, s) =>
      ProvidersInOrder(prev, v);
      assert Stanzas(p)[..|Stanzas(prev)|] == Stanzas(prev);
      AddProvidersAt(Build(prev).providers, Split(s.providesList, ','), s.pkgName, v);
    case Merge(l, r) =>
      ProvidersInOrder(l, v);
      ProvidersInOrder(r, v);
      RegisteredAppend(Stanzas(l), Stanzas(r), v);
  }

  lemma WithoutOne<T>(init: seq<T>, x: T, a: seq<T>, b: seq<T>)
    requires multiset(init + [x]) == multiset(a + [x] + b)
    ensures multiset(init) == multiset(a + b)
  {
    assert multiset(init) == multiset(init + [x]) - multiset{x};
    assert multiset(a + b) == multiset(a + [x] + b) - multiset{x};
  }

  lemma {:induction false} PermutedRegistered(ss: seq<Stanza>, ts: seq<Stanza>, v: string)
    requires multiset(ss) == multiset(ts)
    ensures multiset(Registered(ss, v)) == multiset(Registered(ts, v))
  {
    hide RegisteredBy;
    if ss == [] {
      assert |multiset(ts)| == 0;
    } else {
      var init, s := ss[..|ss| - 1], ss[|ss| - 1];
      assert ss == init + [s] && s in multiset(ts);
      var j :| 0 <= j < |ts| && ts[j] == s;
      var a, b := ts[..j], ts[j + 1..];
      assert ts == a + [s] + b;
      WithoutOne(init, s, a, b);
      PermutedRegistered(init, a + b, v);
      RegisteredAround(a, s, b, v);
      hide Registered;
    }
  }

  lemma RegisteredAround(a: seq<Stanza>, s: Stanza, b: seq<Stanza>, v: string)
    ensures multiset(Registered(a + [s] + b, v)) == multiset(Registered(a + b, v) + RegisteredBy(s, v))
  {
    RegisteredAppend(a, b, v);
    RegisteredAppend(a + [s], b, v);
    assert (a + [s])[..|a|] == a;
    hide RegisteredBy;
  }

  /** Two schedules over the same stanzas, each as often, list the same providers, each as
      often. */
  lemma ProvidersPermute(p: Schedule, q: Schedule, v: string)
    requires v != "" && multiset(Stanzas(p)) == multiset(Stanzas(q))
    ensures multiset(Get(Build(p).providers, v)) == multiset(Get(Build(q).providers, v))
  {
    ProvidersInOrder(p, v);
    ProvidersInOrder(q, v);
    PermutedRegistered(Stanzas(p), Stanzas(q), v);
    hide *;
  }

  /** The last Multi-Arch value given for a key. */
  function LastMultiArch(ss: seq<Stanza>, key: string): string {
    if ss == [] then ""
    else
      var s := ss[|ss| - 1];
      if Feeds([s], key, s) && s.multiArch != "" then s.multiArch else LastMultiArch(ss[..|ss| - 1], key)
  }

  lemma {:induction false} LastMultiArchAppend(a: seq<Stanza>, b: seq<Stanza>, key: string)
    ensures LastMultiArch(a + b, key) == if LastMultiArch(b, key) != "" then LastMultiArch(b, key) else LastMultiArch(a, key)
  {
    hide Feeds;
    if b == [] {
      assert a + b == a;
    } else {
      assert (a + b)[..|a + b| - 1] == a + b[..|b| - 1];
      LastMultiArchAppend(a, b[..|b| - 1], key);
    }
  }

  /** The Multi-Arch field is the last one given, however the stanzas are split up, and
      no stanza of the lists marks an entry installed. */
  lemma {:induction false} MultiArchIsLast(p: Schedule, key: string)
    ensures LastMultiArch(Stanzas(p), key) == EntryOr(Build(p), key).multiArch && !EntryOr(Build(p), key).installed
  {
    hide CompareDebVersion, ParseDepends, FlushStanza, MergeFrom, EntryKey;
    match p
    case Fresh =>
    case Flush(prev, s) =>
      MultiArchIsLast(prev, key);
      assert Stanzas(p)[..|Stanzas(prev)|] == Stanzas(prev);
      FlushedEntry(Build(prev), s, false, key);
    case Merge(l, r) =>
      MultiArchIsLast(l, key);
      MultiArchIsLast(r, key);
      LastMultiArchAppend(Stanzas(l), Stanzas(r), key);
      MergedEntryOr(Build(l), Build(r), key);
  }

  lemma FlushedEntry(ix: Index, s: Stanza, dpkgStatus: bool, key: string)
    ensures EntryOr(FlushStanza(ix, s, dpkgStatus), key) ==
      if Feeds([s], key, s) then MergePackageInfo(EntryOr(ix, key), s, dpkgStatus) else EntryOr(ix, key)
  {
    hide MergePackageInfo, FlushProvides, AddToBareName, EntryKey;
    assert s in [s];
  }

  lemma MergedEntryOr(c: Index, from: Index, key: string)
    ensures EntryOr(MergeFrom(c, from), key) ==
      if key !in from.entries then EntryOr(c, key)
      else if key !in c.entries then from.entries[key] else MergeEntryFields(c.entries[key], from.entries[key])
  {
    hide MergeEntryFields, Repeat, NewKeys;
  }

  /** The overlay of the status file: its stanzas flushed one by one. */
  function Overlaid(ix: Index, ss: seq<Stanza>): Index {
    if ss == [] then ix else FlushStanza(Overlaid(ix, ss[..|ss| - 1]), ss[|ss| - 1], true)
  }

  /** After the overlay an entry is installed exactly when a status stanza of its key says
      so, or it was before. */
  lemma {:induction false} InstalledExactly(ix: Index, ss: seq<Stanza>, key: string)
    ensures EntryOr(Overlaid(ix, ss), key).installed <==> EntryOr(ix, key).installed || exists s :: Feeds(ss, key, s) && s.installed
  {
    hide CompareDebVersion, ParseDepends, FlushStanza, EntryKey;
    if ss != [] {
      var init, s := ss[..|ss| - 1], ss[|ss| - 1];
      InstalledExactly(ix, init, key);
      FlushedEntry(Overlaid(ix, init), s, true, key);
      assert ss == init + [s] && s in [s];
      assert forall t :: Feeds(ss, key, t) <==> Feeds(init, key, t) || (t == s && Feeds([s], key, s));
    }
  }

  /** The list of a bare name holds every stored key qualified with it. */
  ghost predicate BareComplete(ix: Index) {
    forall k :: k in ix.entries && k != BareName(k) ==> k in Get(ix.byBareName, BareName(k))
  }

  /** So whatever the schedule, the lists of bare names hold the same keys: exactly the
      stored ones qualified with the name. */
  lemma {:induction false} BareListsAreComplete(p: Schedule)
    requires forall s :: s in Stanzas(p) ==> ':' !in s.pkgName
    ensures BareComplete(Build(p))
  {
    match p
    case Fresh =>
    case Flush(prev, s) =>
      assert s in Stanzas(p);
      BareListsAreComplete(prev);
      KeyGivesName(s.pkgName, s.arch);
      hide EntryKey, MergePackageInfo, FlushProvides, BareName;
    case Merge(l, r) =>
      BareListsAreComplete(l);
      BareListsAreComplete(r);
      ScheduleKeepsCoherent(r);
      hide BareName, MergeFrom, Build;
      forall k | k in Build(p).entries && k != BareName(k)
        ensures k in Get(Build(p).byBareName, BareName(k))
      {
        MergedIsListed(Build(l), Build(r), k);
      }
  }

  lemma MergedIsListed(c: Index, from: Index, k: string)
    requires BareComplete(c) && BareComplete(from) && KeysMatch(from.entries)
    requires k in MergeFrom(c, from).entries && k != BareName(k)
    ensures k in Get(MergeFrom(c, from).byBareName, BareName(k))
  {
    MergedList(c, from, BareName(k), k);
    if k !in c.entries {
      assert EntryMatches(k, from.entries[k]);
      assert k in NewKeys(c, from, BareName(k));
    }
    hide BareName;
  }

  // ---- the loader's schedule -----------------------------------------------

  function FlushAll(p: Schedule, ss: seq<Stanza>): Schedule {
    if ss == [] then p else Flush(FlushAll(p, ss[..|ss| - 1]), ss[|ss| - 1])
  }

  /** One private cache per file, merged into an empty cache in file order. */
  function LoadSchedule(files: seq<seq<Stanza>>): Schedule {
    if files == [] then Fresh
    else Merge(LoadSchedule(files[..|files| - 1]), FlushAll(Fresh, files[|files| - 1]))
  }

  // ---- field by field --------------------------------------------------------

  /** The fields that a merge takes over one by one. */
  datatype Part = Depends | PreDepends | Filename | Sha256 | Size

  /** What a field holds: names, or a number. */
  datatype Content = Content(names: seq<string>, number: int)

  const NOTHING: Content := Content([], 0)

  function TextContent(text: string): Content {
    Content(if text == "" then [] else [text], 0)
  }

  function NumberContent(n: int): Content {
    Content([], if n > 0 then n else 0)
  }

  function PartOf(s: Stanza, part: Part): Content {
    match part
    case Depends => Content(ParseDepends(s.depends), 0)
    case PreDepends => Content(ParseDepends(s.preDepends), 0)
    case Filename => TextContent(s.filename)
    case Sha256 => TextContent(s.sha256)
    case Size => NumberContent(s.size)
  }

  function EntryPart(e: PackageInfo, part: Part): Content {
    match part
    case Depends => Content(e.depends, 0)
    case PreDepends => Content(e.preDepends, 0)
    case Filename => TextContent(e.filename)
    case Sha256 => TextContent(e.sha256)
    case Size => NumberContent(e.size)
  }

  /** The stanza gives the field; a Depends field given may still name nothing. */
  predicate Gives(s: Stanza, part: Part) {
    match part
    case Depends => s.depends != ""
    case PreDepends => s.preDepends != ""
    case _ => PartOf(s, part) != NOTHING
  }

  predicate Versioned(ss: seq<Stanza>, key: string, s: Stanza) {
    Feeds(ss, key, s) && s.version != ""
  }

  ghost predicate Newest(ss: seq<Stanza>, key: string, s: Stanza) {
    Versioned(ss, key, s) && NewestIs(ss, key, s.version)
  }

  /** A flushed stanza that wins on version hands a field over exactly when it gives it, or
      the entry had nothing there, in either phase. */
  lemma FlushPartExactly(e: PackageInfo, s: Stanza, part: Part, dpkgStatus: bool)
    requires s.version != "" && (e.version == "" || CompareDebVersion(s.version, e.version) > 0)
    ensures var r := MergePackageInfo(e, s, dpkgStatus);
      && r.version == s.version
      && (EntryPart(r, part) == PartOf(s, part) <==> Gives(s, part) || EntryPart(e, part) == NOTHING)
  {
    hide DependNames, CompareDebVersion;
  }

  /** A merged entry that wins on version hands a field over exactly when it holds
      something, or the other entry held nothing there either. */
  lemma MergePartExactly(e: PackageInfo, i: PackageInfo, part: Part)
    requires i.version != "" && (e.version == "" || CompareDebVersion(i.version, e.version) >= 0)
    ensures var r := MergeEntryFields(e, i);
      && r.version == i.version
      && (EntryPart(r, part) == EntryPart(i, part) <==> EntryPart(i, part) != NOTHING || EntryPart(e, part) == NOTHING)
  {
    hide CompareDebVersion;
  }

  ghost predicate NewestGive(ss: seq<Stanza>, key: string, part: Part) {
    forall s :: Newest(ss, key, s) ==> PartOf(s, part) != NOTHING
  }

  ghost predicate FromNewest(value: Content, ss: seq<Stanza>, key: string, part: Part) {
    exists s :: Newest(ss, key, s) && value == PartOf(s, part)
  }

  ghost predicate FromVersioned(value: Content, ss: seq<Stanza>, key: string, part: Part) {
    value == NOTHING || exists s :: Versioned(ss, key, s) && value == PartOf(s, part)
  }

  /** What is known of a field of an entry fed by some of the stanzas ss. */
  ghost predicate PartKnown(e: PackageInfo, ss: seq<Stanza>, key: string, part: Part) {
    && (e.version == "" ==> EntryPart(e, part) == NOTHING)
    && FromVersioned(EntryPart(e, part), ss, key, part)
    && (NewestGive(ss, key, part) && e.version != "" && NewestIs(ss, key, e.version) ==> FromNewest(EntryPart(e, part), ss, key, part))
  }

  lemma FlushPartKnown(e: Option<PackageInfo>, s: Stanza, ss: seq<Stanza>, key: string, part: Part)
    requires (e.Some? ==> PartKnown(e.value, ss, key, part)) && Feeds(ss, key, s)
    ensures PartKnown(Merged(e, s), ss, key, part)
  {
    hide DependNames, CompareDebVersion, EntryKey;
    if s.version != "" && NewestIs(ss, key, s.version) {
      assert Newest(ss, key, s);
    }
    assert s.version != "" ==> Versioned(ss, key, s);
  }

  lemma MergePartKnown(e: PackageInfo, i: PackageInfo, ss: seq<Stanza>, key: string, part: Part)
    requires PartKnown(e, ss, key, part) && PartKnown(i, ss, key, part)
    ensures PartKnown(MergeEntryFields(e, i), ss, key, part)
  {
    hide ParseDepends, CompareDebVersion, EntryKey;
  }

  lemma {:induction false} PartFollows(p: Schedule, ss: seq<Stanza>, key: string, part: Part)
    requires (forall s :: s in Stanzas(p) ==> s in ss) && key in Build(p).entries
    ensures PartKnown(Build(p).entries[key], ss, key, part)
  {
    hide PartKnown, EntryKey, MergePackageInfo, MergeEntryFields;
    match p
    case Fresh =>
    case Flush(prev, s) =>
      assert s in Stanzas(p);
      if key in Build(prev).entries {
        PartFollows(prev, ss, key, part);
      }
      if Feeds(ss, key, s) {
        FlushPartKnown(EntryAt(Build(prev), key), s, ss, key, part);
      }
    case Merge(l, r) =>
      if key in Build(l).entries {
        PartFollows(l, ss, key, part);
      }
      if key in Build(r).entries {
        PartFollows(r, ss, key, part);
      }
      if key in Build(l).entries && key in Build(r).entries {
        MergePartKnown(Build(l).entries[key], Build(r).entries[key], ss, key, part);
      }
  }

  /** What a versioned stanza holds, if anything, a newest stanza holds too. */
  ghost predicate OnlyNewestGive(ss: seq<Stanza>, key: string, part: Part) {
    forall u :: Versioned(ss, key, u) && PartOf(u, part) != NOTHING ==> FromNewest(PartOf(u, part), ss, key, part)
  }

  predicate SameStanzas(p: Schedule, ss: seq<Stanza>) {
    (forall s :: s in Stanzas(p) ==> s in ss) && (forall s :: s in ss ==> s in Stanzas(p))
  }

  /** The field of the entry is that of some stanza of newest version. */
  ghost predicate Follows(p: Schedule, ss: seq<Stanza>, key: string, part: Part) {
    key in Build(p).entries && FromNewest(EntryPart(Build(p).entries[key], part), ss, key, part)
  }

  lemma FollowsIf(p: Schedule, ss: seq<Stanza>, key: string, part: Part)
    requires SameStanzas(p, ss) && (exists s :: Versioned(ss, key, s))
    requires NewestGive(ss, key, part) || OnlyNewestGive(ss, key, part)
    ensures Follows(p, ss, key, part)
  {
    hide Build, Stanzas, PartOf, EntryKey, CompareDebVersion;
    NewestVersionWins(p, key);
    assert forall s :: Feeds(Stanzas(p), key, s) <==> Feeds(ss, key, s);
    PartFollows(p, ss, key, part);
  }

  /** Stanzas no newer than the entry leave its version and fields alone. */
  lemma {:induction false} FlushAllKeeps(p: Schedule, ss: seq<Stanza>, key: string, part: Part)
    requires key in Build(p).entries && Build(p).entries[key].version != "" && NewestIs(ss, key, Build(p).entries[key].version)
    ensures key in Build(FlushAll(p, ss)).entries
    ensures var e, r := Build(p).entries[key], Build(FlushAll(p, ss)).entries[key]; r.version == e.version && EntryPart(r, part) == EntryPart(e, part)
  {
    if ss != [] {
      hide CompareDebVersion, EntryKey, MergePackageInfo, Build, EntryPart;
      var init, s := ss[..|ss| - 1], ss[|ss| - 1];
      assert ss == init + [s];
      assert forall t :: Feeds(init, key, t) ==> Feeds(ss, key, t);
      FlushAllKeeps(p, init, key, part);
      FlushAt(FlushAll(p, init), s, key);
      if Feeds([s], key, s) {
        assert Feeds(ss, key, s);
        LoserLeavesPart(Build(FlushAll(p, init)).entries[key], s, part);
      }
    }
  }

  lemma FlushAt(prev: Schedule, s: Stanza, key: string)
    requires key in Build(prev).entries
    ensures key in Build(Flush(prev, s)).entries
    ensures Build(Flush(prev, s)).entries[key] ==
      if Feeds([s], key, s) then MergePackageInfo(Build(prev).entries[key], s, false) else Build(prev).entries[key]
  {
    hide EntryKey, MergePackageInfo, FlushProvides, AddToBareName;
    assert s in [s];
  }

  lemma LoserLeavesPart(e: PackageInfo, s: Stanza, part: Part)
    requires e.version != "" && (s.version == "" || CompareDebVersion(s.version, e.version) <= 0)
    ensures var r := MergePackageInfo(e, s, false); r.version == e.version && EntryPart(r, part) == EntryPart(e, part)
  {
    hide CompareDebVersion, ParseDepends;
  }

  lemma {:induction false} FlushAllStanzas(p: Schedule, ss: seq<Stanza>)
    ensures Stanzas(FlushAll(p, ss)) == Stanzas(p) + ss
  {
    if ss != [] {
      FlushAllStanzas(p, ss[..|ss| - 1]);
      assert ss == ss[..|ss| - 1] + [ss[|ss| - 1]];
    }
  }

  /** One file with an older stanza u, and one that starts with the newest stanza s. */
  function TwoFiles(u: Stanza, s: Stanza, ss: seq<Stanza>): seq<seq<Stanza>> {
    [[u], [s] + ss]
  }

  lemma TwoFilesStanzas(u: Stanza, s: Stanza, ss: seq<Stanza>)
    requires u in ss && s in ss
    ensures SameStanzas(LoadSchedule(TwoFiles(u, s, ss)), ss)
  {
    var p := LoadSchedule(TwoFiles(u, s, ss));
    TwoFilesSchedule(u, s, ss);
    FlushAllStanzas(Fresh, [u]);
    FlushAllStanzas(Fresh, [s] + ss);
    assert Stanzas(p) == [u] + ([s] + ss);
    hide Stanzas, LoadSchedule, FlushAll;
    assert forall t :: t in Stanzas(p) <==> t == u || t == s || t in ss;
  }

  lemma TwoFilesSchedule(u: Stanza, s: Stanza, ss: seq<Stanza>)
    ensures LoadSchedule(TwoFiles(u, s, ss)) == Merge(Merge(Fresh, FlushAll(Fresh, [u])), FlushAll(Fresh, [s] + ss))
  {
    var files := TwoFiles(u, s, ss);
    hide FlushAll;
    assert files[..1] == [[u]] && [[u]][..0] == [];
    assert LoadSchedule([[u]]) == Merge(Fresh, FlushAll(Fresh, [u]));
  }

  /** The cache of a file that starts with a newest stanza takes its version and fields. */
  lemma FirstOfFile(s: Stanza, ss: seq<Stanza>, key: string, part: Part)
    requires Feeds([s], key, s) && s.version != "" && NewestIs(ss, key, s.version)
    ensures key in Build(FlushAll(Fresh, [s] + ss)).entries
    ensures var e := Build(FlushAll(Fresh, [s] + ss)).entries[key]; e.version == s.version && EntryPart(e, part) == PartOf(s, part)
  {
    hide CompareDebVersion, EntryKey, DependNames, FlushProvides, AddToBareName;
    FlushAllAfter(s, ss);
    FlushAllKeeps(Flush(Fresh, s), ss, key, part);
  }

  lemma {:induction false} FlushAllAfter(s: Stanza, ss: seq<Stanza>)
    ensures FlushAll(Fresh, [s] + ss) == FlushAll(Flush(Fresh, s), ss)
  {
    var all := [s] + ss;
    if ss == [] {
      assert all[..0] == [];
    } else {
      assert all[..|ss|] == [s] + ss[..|ss| - 1];
      FlushAllAfter(s, ss[..|ss| - 1]);
    }
  }

  /** Loaded from two files, the newest stanza's version comes with the older one's field
      when it holds nothing there itself. */
  lemma OlderPartIsKept(u: Stanza, s: Stanza, ss: seq<Stanza>, key: string, part: Part)
    requires Feeds([u], key, u) && Feeds([s], key, s) && u.version != "" && s.version != ""
    requires CompareDebVersion(s.version, u.version) >= 0 && NewestIs(ss, key, s.version) && PartOf(s, part) == NOTHING
    ensures var b := Build(LoadSchedule(TwoFiles(u, s, ss)));
      && key in b.entries && b.entries[key].version == s.version && EntryPart(b.entries[key], part) == PartOf(u, part)
  {
    TwoFilesSchedule(u, s, ss);
    assert [u] + [] == [u];
    FirstOfFile(u, [], key, part);
    FirstOfFile(s, ss, key, part);
    hide CompareDebVersion, EntryKey, ParseDepends, FlushAll, LoadSchedule;
  }

  /** However the stanzas ss are split into files, the field of the entry is that of some
      stanza of newest version, exactly when every newest stanza holds something there,
      or no versioned stanza holds something that no newest one does. */
  lemma PartFollowsExactly(ss: seq<Stanza>, key: string, part: Part)
    requires exists s :: Versioned(ss, key, s)
    ensures (forall p :: SameStanzas(p, ss) ==> Follows(p, ss, key, part))
       <==> NewestGive(ss, key, part) || OnlyNewestGive(ss, key, part)
    ensures (forall files :: SameStanzas(LoadSchedule(files), ss) ==> Follows(LoadSchedule(files), ss, key, part))
       <==> NewestGive(ss, key, part) || OnlyNewestGive(ss, key, part)
  {
    hide SameStanzas, Follows, PartOf, LoadSchedule, EntryKey, CompareDebVersion;
    if NewestGive(ss, key, part) || OnlyNewestGive(ss, key, part) {
      forall p | SameStanzas(p, ss)
        ensures Follows(p, ss, key, part)
      {
        FollowsIf(p, ss, key, part);
      }
    } else {
      var files := Counterexample(ss, key, part);
      assert !Follows(LoadSchedule(files), ss, key, part);
    }
  }

  lemma Counterexample(ss: seq<Stanza>, key: string, part: Part) returns (files: seq<seq<Stanza>>)
    requires !NewestGive(ss, key, part) && !OnlyNewestGive(ss, key, part)
    ensures SameStanzas(LoadSchedule(files), ss) && !Follows(LoadSchedule(files), ss, key, part)
  {
    var s :| Newest(ss, key, s) && PartOf(s, part) == NOTHING;
    var u :| Versioned(ss, key, u) && PartOf(u, part) != NOTHING && !FromNewest(PartOf(u, part), ss, key, part);
    files := TwoFiles(u, s, ss);
    VersionSwap(s.version, u.version);
    hide PartOf, LoadSchedule, EntryKey, CompareDebVersion, Build, SameStanzas, FromNewest;
    TwoFilesStanzas(u, s, ss);
    OlderPartIsKept(u, s, ss, key, part);
  }

  /** Both lists come from one newest stanza when every newest stanza has both. */
  ghost predicate BothFromOne(e: PackageInfo, ss: seq<Stanza>, key: string) {
    exists s :: Newest(ss, key, s) && e.version == s.version && e.depends == ParseDepends(s.depends) && e.preDepends == ParseDepends(s.preDepends)
  }

  ghost predicate BothKnown(e: PackageInfo, ss: seq<Stanza>, key: string) {
    e.version != "" && NewestIs(ss, key, e.version) ==> BothFromOne(e, ss, key)
  }

  lemma FlushBothKnown(e: Option<PackageInfo>, s: Stanza, ss: seq<Stanza>, key: string)
    requires NewestGive(ss, key, Depends) && NewestGive(ss, key, PreDepends)
    requires (e.Some? ==> BothKnown(e.value, ss, key)) && Feeds(ss, key, s)
    ensures BothKnown(Merged(e, s), ss, key)
  {
    hide DependNames, CompareDebVersion, EntryKey;
    if s.version != "" && NewestIs(ss, key, s.version) {
      assert Newest(ss, key, s);
    }
  }

  lemma MergeBothKnown(e: PackageInfo, i: PackageInfo, ss: seq<Stanza>, key: string)
    requires NewestGive(ss, key, Depends) && NewestGive(ss, key, PreDepends)
    requires BothKnown(e, ss, key) && BothKnown(i, ss, key)
    ensures BothKnown(MergeEntryFields(e, i), ss, key)
  {
    hide ParseDepends, CompareDebVersion, EntryKey;
  }

  lemma {:induction false} BothFollow(p: Schedule, ss: seq<Stanza>, key: string)
    requires NewestGive(ss, key, Depends) && NewestGive(ss, key, PreDepends)
    requires (forall s :: s in Stanzas(p) ==> s in ss) && key in Build(p).entries
    ensures BothKnown(Build(p).entries[key], ss, key)
  {
    hide BothKnown, NewestGive, EntryKey, MergePackageInfo, MergeEntryFields;
    match p
    case Fresh =>
    case Flush(prev, s) =>
      assert s in Stanzas(p);
      if key in Build(prev).entries {
        BothFollow(prev, ss, key);
      }
      if Feeds(ss, key, s) {
        FlushBothKnown(EntryAt(Build(prev), key), s, ss, key);
      }
    case Merge(l, r) =>
      if key in Build(l).entries {
        BothFollow(l, ss, key);
      }
      if key in Build(r).entries {
        BothFollow(r, ss, key);
      }
      if key in Build(l).entries && key in Build(r).entries {
        MergeBothKnown(Build(l).entries[key], Build(r).entries[key], ss, key);
      }
  }

  /** When every newest stanza has a Depends list and a Pre-Depends list, version and both
      lists come together from one newest stanza. */
  lemma DependsAreCoherent(p: Schedule, key: string)
    requires NewestGive(Stanzas(p), key, Depends) && NewestGive(Stanzas(p), key, PreDepends)
    requires key in Build(p).entries && Build(p).entries[key].hasCandidate
    ensures BothFromOne(Build(p).entries[key], Stanzas(p), key)
  {
    hide NewestGive, BothFromOne, Build, Stanzas, EntryKey, CompareDebVersion;
    NewestVersionWins(p, key);
    BothFollow(p, Stanzas(p), key);
  }

  /** A field that holds only a comma has an empty list. */
  lemma CommaIsEmpty(value: string)
    requires |value| == 1 && value[0] == ','
    ensures ParseDepends(value) == []
  {
    var rest := value[1..];
    assert IndexOf(rest, ',') == -1;
    assert Split(rest, ',') == [rest];
    assert Split(value, ',') == [value[..0]] + [rest];
    BlankHasNoName(rest);
    BlankHasNoName(value[..0]);
    hide Split, DependName;
    assert [value[..0], rest][1..] == [rest] && [rest][1..] == [];
    assert DependNames([rest]) == [];
  }

  lemma BlankHasNoName(item: string)
    requires item == []
    ensures DependName(item) == ""
  {
  }

  /** Two files, the second with a newer version whose Depends field is a comma: the
      version is the newer one's, the dependencies are the older one's. */
  lemma CommaKeepsOlderDepends(u: Stanza, s: Stanza, key: string)
    requires Feeds([u], key, u) && Feeds([s], key, s) && u.version != ""
    requires s.version != "" && CompareDebVersion(s.version, u.version) > 0 && s.depends == ","
    ensures var b := Build(LoadSchedule([[u], [s]]));
      && key in b.entries && b.entries[key].version == s.version && b.entries[key].depends == ParseDepends(u.depends)
  {
    CommaIsEmpty(s.depends);
    assert [s] + [] == [s];
    hide CompareDebVersion, EntryKey, ParseDepends, Build, LoadSchedule;
    OlderPartIsKept(u, s, [], key, Depends);
  }

  // ---- fields that do not come together ----------------------------------------

  lemma OneStanza(u: Stanza, key: string)
    requires Feeds([u], key, u)
    ensures var b := Build(FlushAll(Fresh, [u])); key in b.entries && b.entries[key] == Merged(None, u)
  {
    FlushAllAfter(u, []);
    assert [u] + [] == [u];
    hide EntryKey, MergePackageInfo, FlushProvides, AddToBareName;
  }

  lemma MergedAt(c: Index, from: Index, key: string)
    requires key in from.entries
    ensures key in MergeFrom(c, from).entries
    ensures MergeFrom(c, from).entries[key] ==
      if key in c.entries then MergeEntryFields(c.entries[key], from.entries[key]) else from.entries[key]
  {
    hide MergeEntryFields, Repeat, NewKeys;
  }

  lemma MergedTwice(l: Schedule, r: Schedule, key: string)
    requires key in Build(l).entries && key in Build(r).entries
    ensures var b := Build(Merge(Merge(Fresh, l), r));
      key in b.entries && b.entries[key] == MergeEntryFields(Build(l).entries[key], Build(r).entries[key])
  {
    BuildMerge(Fresh, l);
    BuildMerge(Merge(Fresh, l), r);
    assert Build(Fresh).entries == map[];
    hide *;
    MergedAt(Build(Fresh), Build(l), key);
    MergedAt(Build(Merge(Fresh, l)), Build(r), key);
  }

  lemma BuildMerge(l: Schedule, r: Schedule)
    ensures Build(Merge(l, r)) == MergeFrom(Build(l), Build(r))
  {
    hide MergeFrom;
  }

  lemma TwoStanzas(u: Stanza, s: Stanza, key: string)
    requires Feeds([u], key, u) && Feeds([s], key, s)
    ensures var b := Build(LoadSchedule([[u], [s]]));
      key in b.entries && b.entries[key] == MergeEntryFields(Merged(None, u), Merged(None, s))
  {
    hide *;
    TwoFilesSchedule(u, s, []);
    OneStanza(u, key);
    OneStanza(s, key);
    MergedTwice(FlushAll(Fresh, [u]), FlushAll(Fresh, [s]), key);
    assert [s] + [] == [s];
    assert TwoFiles(u, s, []) == [[u], [s]] by { FilesAre(u, s); }
  }

  lemma FilesAre(u: Stanza, s: Stanza)
    ensures TwoFiles(u, s, []) == [[u], [s]]
  {
    assert [s] + [] == [s];
  }

  /** For Architecture: all the version, file name and checksum of the newer stanza come
      with the base URL of the older one, from another repository. */
  lemma AllKeepsOlderBaseURL(u: Stanza, s: Stanza, key: string)
    requires Feeds([u], key, u) && Feeds([s], key, s) && s.arch == ARCH_ALL
    requires u.version != "" && s.version != "" && CompareDebVersion(s.version, u.version) > 0
    requires s.filename != "" && s.sha256 != ""
    ensures var e := EntryOr(Build(LoadSchedule([[u], [s]])), key);
      e.version == s.version && e.filename == s.filename && e.sha256 == s.sha256 && e.baseURL == u.baseURL
  {
    TwoStanzas(u, s, key);
    hide Build, LoadSchedule, CompareDebVersion, ParseDepends, EntryKey;
  }

  // ---- where the base URL comes from --------------------------------------------

  /** What a stanza has to say about the base URL: nothing without a version. */
  function Url(s: Stanza): string {
    if s.version == "" then "" else s.baseURL
  }

  predicate Bare(arch: string) {
    arch == "" || arch == ARCH_ALL
  }

  ghost predicate AllBare(ss: seq<Stanza>, key: string) {
    forall s :: Feeds(ss, key, s) ==> Bare(s.arch)
  }

  ghost predicate AllConcrete(ss: seq<Stanza>, key: string) {
    forall s :: Feeds(ss, key, s) ==> !Bare(s.arch)
  }

  /** The stanzas of one key of colon-free names are all of one kind. */
  lemma KeysAreUniform(ss: seq<Stanza>, key: string)
    requires forall s :: s in ss ==> ':' !in s.pkgName
    ensures AllBare(ss, key) || AllConcrete(ss, key)
  {
    forall s, t | Feeds(ss, key, s) && Feeds(ss, key, t)
      ensures Bare(s.arch) <==> Bare(t.arch)
    {
      KeyInjective(s.pkgName, s.arch, t.pkgName, t.arch);
    }
    hide EntryKey;
  }

  ghost predicate UrlFromNewest(url: string, ss: seq<Stanza>, key: string) {
    exists s :: Newest(ss, key, s) && url == s.baseURL
  }

  ghost predicate NewestGiveUrl(ss: seq<Stanza>, key: string) {
    forall s :: Newest(ss, key, s) ==> s.baseURL != "" && s.filename != ""
  }

  ghost predicate OnlyNewestUrls(ss: seq<Stanza>, key: string) {
    forall s :: Feeds(ss, key, s) ==> UrlFromNewest(Url(s), ss, key)
  }

  ghost predicate UrlFromSome(url: string, ss: seq<Stanza>, key: string) {
    exists s :: Feeds(ss, key, s) && url == Url(s)
  }

  /** What is known of the base URL of an entry fed by some of the stanzas ss. */
  ghost predicate UrlKnown(e: PackageInfo, ss: seq<Stanza>, key: string) {
    && UrlFromSome(e.baseURL, ss, key)
    && (AllConcrete(ss, key) ==> !Bare(e.architecture))
    && (AllConcrete(ss, key) && NewestGiveUrl(ss, key) && e.version != "" && NewestIs(ss, key, e.version) ==>
      UrlFromNewest(e.baseURL, ss, key) && e.baseURL != "" && e.filename != "")
  }

  lemma FlushUrlKnown(e: Option<PackageInfo>, s: Stanza, ss: seq<Stanza>, key: string)
    requires (e.Some? ==> UrlKnown(e.value, ss, key)) && Feeds(ss, key, s)
    ensures UrlKnown(Merged(e, s), ss, key)
  {
    hide ParseDepends, CompareDebVersion, EntryKey;
    if s.version != "" && NewestIs(ss, key, s.version) {
      assert Newest(ss, key, s);
    }
    assert UrlFromSome(Url(s), ss, key);
  }

  lemma MergeUrlKnown(e: PackageInfo, i: PackageInfo, ss: seq<Stanza>, key: string)
    requires UrlKnown(e, ss, key) && UrlKnown(i, ss, key)
    ensures UrlKnown(MergeEntryFields(e, i), ss, key)
  {
    hide CompareDebVersion, EntryKey, UrlFromSome, UrlFromNewest, NewestIs, NewestGiveUrl, AllConcrete;
  }

  lemma {:induction false} UrlFollowsKnown(p: Schedule, ss: seq<Stanza>, key: string)
    requires (forall s :: s in Stanzas(p) ==> s in ss) && key in Build(p).entries
    ensures UrlKnown(Build(p).entries[key], ss, key)
  {
    hide UrlKnown, EntryKey, MergePackageInfo, MergeEntryFields;
    match p
    case Fresh =>
    case Flush(prev, s) =>
      assert s in Stanzas(p);
      if key in Build(prev).entries {
        UrlFollowsKnown(prev, ss, key);
      }
      if Feeds(ss, key, s) {
        FlushUrlKnown(EntryAt(Build(prev), key), s, ss, key);
      }
    case Merge(l, r) =>
      if key in Build(l).entries {
        UrlFollowsKnown(l, ss, key);
      }
      if key in Build(r).entries {
        UrlFollowsKnown(r, ss, key);
      }
      if key in Build(l).entries && key in Build(r).entries {
        MergeUrlKnown(Build(l).entries[key], Build(r).entries[key], ss, key);
      }
  }

  ghost predicate UrlFollows(p: Schedule, ss: seq<Stanza>, key: string) {
    key in Build(p).entries && UrlFromNewest(Build(p).entries[key].baseURL, ss, key)
  }

  lemma UrlFollowsIf(p: Schedule, ss: seq<Stanza>, key: string)
    requires SameStanzas(p, ss) && (exists s :: Versioned(ss, key, s))
    requires (AllConcrete(ss, key) && NewestGiveUrl(ss, key)) || OnlyNewestUrls(ss, key)
    ensures UrlFollows(p, ss, key)
  {
    hide Build, Stanzas, EntryKey, CompareDebVersion, UrlFromNewest;
    NewestVersionWins(p, key);
    assert forall s :: Feeds(Stanzas(p), key, s) <==> Feeds(ss, key, s);
    UrlFollowsKnown(p, ss, key);
  }

  /** Stanzas no newer than the entry leave the fields a merge looks at alone. */
  lemma {:induction false} FlushAllKeepsUrl(p: Schedule, ss: seq<Stanza>, key: string)
    requires key in Build(p).entries && Build(p).entries[key].version != "" && NewestIs(ss, key, Build(p).entries[key].version)
    ensures key in Build(FlushAll(p, ss)).entries
    ensures var e, r := Build(p).entries[key], Build(FlushAll(p, ss)).entries[key];
      r.version == e.version && r.baseURL == e.baseURL && r.filename == e.filename
      && (Bare(e.architecture) && AllBare(ss, key) ==> Bare(r.architecture))
  {
    if ss != [] {
      hide CompareDebVersion, EntryKey, MergePackageInfo, Build;
      var init, s := ss[..|ss| - 1], ss[|ss| - 1];
      assert ss == init + [s];
      assert forall t :: Feeds(init, key, t) ==> Feeds(ss, key, t);
      FlushAllKeepsUrl(p, init, key);
      FlushAt(FlushAll(p, init), s, key);
      if Feeds([s], key, s) {
        assert Feeds(ss, key, s);
        LoserLeavesUrl(Build(FlushAll(p, init)).entries[key], s);
      }
    }
  }

  lemma LoserLeavesUrl(e: PackageInfo, s: Stanza)
    requires e.version != "" && (s.version == "" || CompareDebVersion(s.version, e.version) <= 0)
    ensures var r := MergePackageInfo(e, s, false);
      r.version == e.version && r.baseURL == e.baseURL && r.filename == e.filename
      && (Bare(e.architecture) && Bare(s.arch) ==> Bare(r.architecture))
  {
    hide CompareDebVersion, ParseDepends;
  }

  /** The cache of a file that starts with a newest stanza, as far as a merge looks at it. */
  lemma FirstOfFileUrl(s: Stanza, ss: seq<Stanza>, key: string)
    requires Feeds([s], key, s) && s.version != "" && NewestIs(ss, key, s.version)
    ensures key in Build(FlushAll(Fresh, [s] + ss)).entries
    ensures var e := Build(FlushAll(Fresh, [s] + ss)).entries[key];
      e.version == s.version && e.baseURL == s.baseURL && e.filename == s.filename
      && (Bare(s.arch) && AllBare(ss, key) ==> Bare(e.architecture))
  {
    OneStanza(s, key);
    FlushAllAfter(s, ss);
    FlushAllAfter(s, []);
    assert [s] + [] == [s];
    hide CompareDebVersion, EntryKey, ParseDepends, FlushAll, Build;
    FlushAllKeepsUrl(FlushAll(Fresh, [s]), ss, key);
  }

  /** Loaded from two files, the first stanza's base URL stays when the newest stanza that
      starts the second has no file, no base URL, or no concrete architecture. */
  lemma OlderUrlIsKept(t: Stanza, s: Stanza, ss: seq<Stanza>, key: string)
    requires Feeds([t], key, t) && Feeds([s], key, s) && s.version != "" && NewestIs(ss, key, s.version)
    requires t.version == "" || CompareDebVersion(s.version, t.version) >= 0
    requires s.baseURL == "" || s.filename == "" || (Bare(s.arch) && AllBare(ss, key))
    ensures var b := Build(LoadSchedule(TwoFiles(t, s, ss))); key in b.entries && b.entries[key].baseURL == Url(t)
  {
    OneStanza(t, key);
    FirstOfFileUrl(s, ss, key);
    TwoFilesSchedule(t, s, ss);
    hide CompareDebVersion, EntryKey, ParseDepends, FlushAll, LoadSchedule, Build;
    MergedTwice(FlushAll(Fresh, [t]), FlushAll(Fresh, [s] + ss), key);
  }

  /** However the stanzas ss are split into files, the base URL of the entry is that of
      some stanza of newest version, exactly when the key is of a concrete architecture
      and every newest stanza names a file and a base URL, or every stanza of the key has
      the base URL of a newest one. */
  lemma UrlFollowsExactly(ss: seq<Stanza>, key: string)
    requires exists s :: Versioned(ss, key, s)
    requires AllConcrete(ss, key) || AllBare(ss, key)
    ensures (forall p :: SameStanzas(p, ss) ==> UrlFollows(p, ss, key))
       <==> (AllConcrete(ss, key) && NewestGiveUrl(ss, key)) || OnlyNewestUrls(ss, key)
    ensures (forall files :: SameStanzas(LoadSchedule(files), ss) ==> UrlFollows(LoadSchedule(files), ss, key))
       <==> (AllConcrete(ss, key) && NewestGiveUrl(ss, key)) || OnlyNewestUrls(ss, key)
  {
    hide SameStanzas, UrlFollows, LoadSchedule, EntryKey, CompareDebVersion, NewestGiveUrl, OnlyNewestUrls, AllConcrete, AllBare;
    if (AllConcrete(ss, key) && NewestGiveUrl(ss, key)) || OnlyNewestUrls(ss, key) {
      forall p | SameStanzas(p, ss)
        ensures UrlFollows(p, ss, key)
      {
        UrlFollowsIf(p, ss, key);
      }
    } else {
      var files := UrlCounterexample(ss, key);
      assert !UrlFollows(LoadSchedule(files), ss, key);
    }
  }

  lemma UrlCounterexample(ss: seq<Stanza>, key: string) returns (files: seq<seq<Stanza>>)
    requires (exists s :: Versioned(ss, key, s)) && (AllConcrete(ss, key) || AllBare(ss, key))
    requires !(AllConcrete(ss, key) && NewestGiveUrl(ss, key)) && !OnlyNewestUrls(ss, key)
    ensures SameStanzas(LoadSchedule(files), ss) && !UrlFollows(LoadSchedule(files), ss, key)
  {
    var t :| Feeds(ss, key, t) && !UrlFromNewest(Url(t), ss, key);
    var s := BlockingNewest(ss, key);
    files := TwoFiles(t, s, ss);
    VersionSwap(s.version, t.version);
    hide LoadSchedule, EntryKey, CompareDebVersion, Build, SameStanzas, UrlFromNewest;
    TwoFilesStanzas(t, s, ss);
    OlderUrlIsKept(t, s, ss, key);
  }

  /** A newest stanza whose base URL a merge does not take over. */
  lemma BlockingNewest(ss: seq<Stanza>, key: string) returns (s: Stanza)
    requires (exists s :: Versioned(ss, key, s)) && (AllConcrete(ss, key) || AllBare(ss, key))
    requires !(AllConcrete(ss, key) && NewestGiveUrl(ss, key))
    ensures Newest(ss, key, s) && (s.baseURL == "" || s.filename == "" || (Bare(s.arch) && AllBare(ss, key)))
  {
    hide EntryKey, CompareDebVersion;
    if AllConcrete(ss, key) {
      s :| Newest(ss, key, s) && (s.baseURL == "" || s.filename == "");
    } else {
      s := SomeNewest(ss, key);
    }
  }

  lemma SomeNewest(ss: seq<Stanza>, key: string) returns (s: Stanza)
    requires exists s :: Versioned(ss, key, s)
    ensures Newest(ss, key, s)
  {
    var p := FlushAll(Fresh, ss);
    FlushAllStanzas(Fresh, ss);
    assert [] + ss == ss;
    hide Build, FlushAll, EntryKey, CompareDebVersion;
    NewestVersionWins(p, key);
    var v := EntryAt(Build(p), key).value.version;
    s :| Feeds(ss, key, s) && s.version == v;
  }

  // ---- the overlay of installed packages ------------------------------------------

  /** r has the version and the file fields of e. */
  predicate FileKept(r: PackageInfo, e: PackageInfo) {
    r.version == e.version && r.filename == e.filename && r.sha256 == e.sha256 && r.size == e.size && r.baseURL == e.baseURL
  }

  /** r has the version and the file fields of s, blank ones included. */
  predicate FileFrom(r: PackageInfo, s: Stanza) {
    && r.version == s.version && r.baseURL == s.baseURL && EntryPart(r, Filename) == PartOf(s, Filename)
    && EntryPart(r, Sha256) == PartOf(s, Sha256) && EntryPart(r, Size) == PartOf(s, Size)
  }

  predicate HandedOver(e: PackageInfo, s: Stanza, part: Part) {
    Gives(s, part) || EntryPart(e, part) == NOTHING
  }

  /** Every file field is given by s, or blank in e. */
  predicate FileHandedOver(e: PackageInfo, s: Stanza) {
    (s.baseURL != "" || e.baseURL == "") && HandedOver(e, s, Filename) && HandedOver(e, s, Sha256) && HandedOver(e, s, Size)
  }

  predicate Loses(e: PackageInfo, s: Stanza) {
    s.version == "" || (e.version != "" && CompareDebVersion(s.version, e.version) <= 0)
  }

  lemma WinnerTogether(e: PackageInfo, s: Stanza, dpkgStatus: bool)
    requires !Loses(e, s)
    ensures var r := MergePackageInfo(e, s, dpkgStatus);
      !FileKept(r, e) && (FileFrom(r, s) <==> FileHandedOver(e, s))
  {
    VersionSwap(e.version, e.version);
    FlushPartExactly(e, s, Filename, dpkgStatus);
    FlushPartExactly(e, s, Sha256, dpkgStatus);
    FlushPartExactly(e, s, Size, dpkgStatus);
    hide CompareDebVersion, ParseDepends, EntryPart, PartOf, Gives;
  }

  /** A stanza flushed onto the index, in either phase, leaves version and file fields
      together exactly when it has no version, loses on version, or gives every file field
      the entry holds. */
  lemma FlushTogetherExactly(ix: Index, s: Stanza, dpkgStatus: bool, key: string)
    requires Feeds([s], key, s)
    ensures var e, r := EntryOr(ix, key), EntryOr(FlushStanza(ix, s, dpkgStatus), key);
      FileKept(r, e) || FileFrom(r, s) <==> Loses(e, s) || FileHandedOver(e, s)
  {
    var e := EntryOr(ix, key);
    if !Loses(e, s) {
      WinnerTogether(e, s, dpkgStatus);
    }
    hide CompareDebVersion, CopyStanzaArtifacts, FlushProvides, AddToBareName, EntryKey, FileFrom, FileHandedOver;
  }

  /** An installed version newer than all offered ones takes over the version, and leaves
      the file of the offered one, since the status file names none. */
  lemma OverlayKeepsOlderFile(ix: Index, s: Stanza, key: string)
    requires Feeds([s], key, s) && key in ix.entries && ix.entries[key].version != "" && ix.entries[key].filename != ""
    requires s.version != "" && CompareDebVersion(s.version, ix.entries[key].version) > 0
    requires s.filename == "" && s.sha256 == "" && s.size == 0 && s.baseURL == ""
    ensures var e, r := ix.entries[key], FlushStanza(ix, s, true).entries[key];
      r.version == s.version && r.filename == e.filename && r.sha256 == e.sha256 && r.size == e.size && r.baseURL == e.baseURL
  {
    hide CompareDebVersion, ParseDepends, FlushProvides, AddToBareName, EntryKey;
  }
}
