/** The apt cache as the program keeps it: entries overwritten in place, maps
    extended while index files are loaded and merged. */
module AptCache {
  import opened Text
  import opened DebVersion
  import opened AptIndex
  import opened AptSchedule

  /** One package record; merges overwrite its fields. */
  class Entry {
    var info: PackageInfo

    constructor ()
      ensures info == BLANK
    {
      info := BLANK;
    }

    method MergeStanza(s: Stanza, dpkgStatus: bool)
      modifies this
      ensures info == MergePackageInfo(old(info), s, dpkgStatus)
    {
      hide MergeHeader, CompareDebVersion, AptIndex.CopyStanzaArtifacts;
      MergeStanzaHeader(s, dpkgStatus);
      if s.version == "" {
        return;
      }
      info := info.(hasCandidate := true);
      if info.version != "" {
        var c := CompareVersions(s.version, info.version);
        if c <= 0 {
          return;
        }
      }
      CopyStanzaArtifacts(s);
    }

    method MergeStanzaHeader(s: Stanza, dpkgStatus: bool)
      modifies this
      ensures info == MergeHeader(old(info), s, dpkgStatus)
    {
      info := info.(name := s.pkgName);
      if s.arch != "" {
        info := info.(architecture := s.arch);
      }
      if s.essential {
        info := info.(essential := true);
      }
      if s.multiArch != "" {
        info := info.(multiArch := s.multiArch);
      }
      if dpkgStatus && s.installed {
        info := info.(installed := true);
      }
    }

    method CopyStanzaArtifacts(s: Stanza)
      modifies this
      ensures info == AptIndex.CopyStanzaArtifacts(old(info), s)
    {
      hide ParseDepends;
      CopyStanzaFile(s);
      if s.depends != "" {
        info := info.(depends := ParseDepends(s.depends));
      }
      if s.preDepends != "" {
        info := info.(preDepends := ParseDepends(s.preDepends));
      }
    }

    method CopyStanzaFile(s: Stanza)
      modifies this
      ensures info == old(info).(
        version := s.version,
        filename := if s.filename != "" then s.filename else old(info).filename,
        sha256 := if s.sha256 != "" then s.sha256 else old(info).sha256,
        size := if s.size > 0 then s.size else old(info).size,
        baseURL := if s.baseURL != "" then s.baseURL else old(info).baseURL)
    {
      info := info.(version := s.version);
      if s.filename != "" {
        info := info.(filename := s.filename);
      }
      if s.sha256 != "" {
        info := info.(sha256 := s.sha256);
      }
      if s.size > 0 {
        info := info.(size := s.size);
      }
      if s.baseURL != "" {
        info := info.(baseURL := s.baseURL);
      }
    }

    method MergeFields(from: Entry)
      requires from != this
      modifies this
      ensures info == MergeEntryFields(old(info), from.info)
    {
      hide CompareDebVersion;
      var i := from.info;
      info := info.(architecture := if i.architecture != "" then i.architecture else info.architecture);
      info := info.(multiArch := if i.multiArch != "" then i.multiArch else info.multiArch);
      info := info.(essential := info.essential || i.essential);
      info := info.(hasCandidate := info.hasCandidate || i.hasCandidate);
      if InfoArtifactsWin(info, i) {
        CopyInfoArtifacts(i);
      }
    }

    method CopyInfoArtifacts(i: PackageInfo)
      modifies this
      ensures info == AptIndex.CopyInfoArtifacts(old(info), i)
    {
      CopyInfoFile(i);
      if i.sha256 != "" {
        info := info.(sha256 := i.sha256);
      }
      if i.size > 0 {
        info := info.(size := i.size);
      }
      if |i.depends| > 0 {
        info := info.(depends := i.depends);
      }
      if |i.preDepends| > 0 {
        info := info.(preDepends := i.preDepends);
      }
    }

    method CopyInfoFile(i: PackageInfo)
      modifies this
      ensures info == old(info).(
        version := if i.version != "" then i.version else old(info).version,
        filename := if i.filename != "" then i.filename else old(info).filename,
        baseURL := if i.filename != "" && i.baseURL != "" && i.architecture != "" && i.architecture != ARCH_ALL
                   then i.baseURL else old(info).baseURL)
    {
      if i.version != "" {
        info := info.(version := i.version);
      }
      if i.filename != "" {
        info := info.(filename := i.filename);
        if i.baseURL != "" && i.architecture != "" && i.architecture != ARCH_ALL {
          info := info.(baseURL := i.baseURL);
        }
      }
    }
  }

  class Cache {
    var entries: map<string, Entry>
    var providers: map<string, seq<string>>
    var byBareName: map<string, seq<string>>

    /** No two keys share a record. */
    ghost predicate Valid()
      reads this
    {
      Unshared(entries)
    }

    /** The cache as a value. */
    function View(): Index
      reads this, entries.Values
    {
      Index(Infos(), providers, byBareName)
    }

    function Infos(): map<string, PackageInfo>
      reads this`entries, entries.Values
    {
      map k | k in entries :: entries[k].info
    }

    constructor ()
      ensures Valid() && View() == EMPTY && entries.Values == {}
    {
      entries, providers, byBareName := map[], map[], map[];
    }

    method FlushProvides(pkg: string, list: string)
      modifies this`providers
      ensures providers == AptIndex.FlushProvides(old(providers), pkg, list)
    {
      hide ProvideName, Split;
      if list == "" {
        return;
      }
      var items := Split(list, ',');
      var i := 0;
      while i < |items|
        invariant 0 <= i <= |items|
        invariant providers == AddProviders(old(providers), items[..i], pkg)
      {
        assert items[..i + 1][..i] == items[..i];
        var v := ProvideName(items[i]);
        i := i + 1;
        if v == "" {
          continue;
        }
        providers := providers[v := Get(providers, v) + [pkg]];
      }
      assert items[..i] == items;
    }

    /** The record under key, a blank one being inserted when there is none. */
    method EntryFor(key: string) returns (e: Entry)
      requires Valid()
      modifies this`entries
      ensures Valid() && entries == old(entries)[key := e]
      ensures key in old(entries) ==> e == old(entries)[key]
      ensures key !in old(entries) ==> fresh(e)
      ensures e.info == EntryOr(old(View()), key)
    {
      if key in entries {
        return entries[key];
      }
      e := new Entry();
      entries := entries[key := e];
    }

    method MergeIntoEntry(key: string, s: Stanza, dpkgStatus: bool)
      requires Valid()
      modifies this`entries, entries.Values
      ensures Valid() && fresh(entries.Values - old(entries.Values))
      ensures View().entries == old(View()).entries[key := MergePackageInfo(EntryOr(old(View()), key), s, dpkgStatus)]
    {
      hide MergePackageInfo;
      var existing := EntryFor(key);
      existing.MergeStanza(s, dpkgStatus);
      assert View().entries == old(View()).entries[key := existing.info];
    }

    method FlushStanza(s: Stanza, dpkgStatus: bool)
      requires Valid()
      modifies this, entries.Values
      ensures Valid() && fresh(entries.Values - old(entries.Values))
      ensures View() == AptIndex.FlushStanza(old(View()), s, dpkgStatus)
    {
      hide MergePackageInfo, AptIndex.FlushProvides;
      if s.pkgName == "" {
        return;
      }
      var key := EntryKey(s.pkgName, s.arch);
      MergeIntoEntry(key, s, dpkgStatus);
      FlushProvides(s.pkgName, s.providesList);
      byBareName := AddToBareName(byBareName, s.pkgName, key);
    }

    /** Insert or replace; the record is a copy of its own. */
    method AddEntry(info: PackageInfo)
      requires Valid()
      modifies this
      ensures Valid() && fresh(entries.Values - old(entries.Values))
      ensures View() == AptIndex.AddEntry(old(View()), info)
    {
      var cp := new Entry();
      cp.info := info;
      var key := EntryKey(info.name, info.architecture);
      entries := entries[key := cp];
      byBareName := AddToBareName(byBareName, info.name, key);
      assert View().entries == old(View()).entries[key := info];
    }

    /** The entry a name leads to: the exact key, else without its qualifier as it is,
        for the host, for all architectures, and at last any. */
    method Lookup(host: string, name0: string) returns (info: Option<PackageInfo>)
      ensures var r := AptIndex.Lookup(View(), host, name0);
        info == if r.Some? then Some(View().entries[r.value]) else None
    {
      hide Before, Qualified;
      var name := name0;
      if ':' in name {
        if name in entries {
          return Some(entries[name].info);
        }
      }
      name := Before(name0, ':');
      if name in entries {
        return Some(entries[name].info);
      }
      if Qualified(name, host) in entries {
        return Some(entries[Qualified(name, host)].info);
      }
      if Qualified(name, ARCH_ALL) in entries {
        return Some(entries[Qualified(name, ARCH_ALL)].info);
      }
      info := ScanEntryByName(name);
    }

    method ScanEntryByName(name: string) returns (info: Option<PackageInfo>)
      ensures var r := ScanByName(View(), name);
        info == if r.Some? then Some(View().entries[r.value]) else None
    {
      info := None;
      if name in byBareName && |byBareName[name]| > 0 && byBareName[name][0] in entries {
        info := Some(entries[byBareName[name][0]].info);
      }
    }

    /** Parse one file's stanzas into this cache. */
    method ParseFile(stanzas: seq<Stanza>, ghost p: Schedule)
      requires Valid() && View() == Build(p)
      modifies this, entries.Values
      ensures Valid() && fresh(entries.Values - old(entries.Values))
      ensures View() == Build(FlushAll(p, stanzas))
    {
      var i := 0;
      while i < |stanzas|
        invariant 0 <= i <= |stanzas|
        invariant Valid() && fresh(entries.Values - old(entries.Values))
        invariant View() == Build(FlushAll(p, stanzas[..i]))
      {
        FlushStanza(stanzas[i], false);
        i := i + 1;
        assert stanzas[..i][..i - 1] == stanzas[..i - 1];
      }
      assert stanzas[..i] == stanzas;
    }

    /** Fold another cache in, one key at a time in any order. New records are
        shared with `other`, which is not used afterwards. */
    method MergeFrom(other: Cache)
      requires Valid() && other.Valid() && other != this
      requires entries.Values !! other.entries.Values
      modifies this, entries.Values
      ensures Valid() && entries.Values <= old(entries.Values) + other.entries.Values
      ensures View() == AptIndex.MergeFrom(old(View()), old(other.View()))
    {
      ghost var c, o := View(), other.View();
      ProvidersOfMerge(c, o);
      hide AptIndex.MergeFrom, Infos, Unshared;
      MergeEntries(other, c, o);
      MergeProviders(other.providers);
      SameIndex(View(), AptIndex.MergeFrom(c, o));
    }

    method MergeKey(other: Cache, k: string)
      requires Valid() && other != this && k in other.entries
      requires k in entries ==> entries[k] !in other.entries.Values
      modifies this`entries, this`byBareName, if k in entries then {entries[k]} else {}
      ensures entries == old(if k in entries then entries else entries[k := other.entries[k]])
      ensures View().entries == old(View()).entries[k := MergedEntry(old(View()), old(other.View()), k)]
      ensures byBareName == old(if k in entries then byBareName
                                else TakeBareName(byBareName, other.byBareName, other.entries[k].info.name))
    {
      hide MergeEntryFields;
      assert other.entries[k] in other.entries.Values;
      var info := other.entries[k];
      if k !in entries {
        entries := entries[k := info];
        var name := info.info.name;
        if name in other.byBareName {
          byBareName := byBareName[name := Get(byBareName, name) + other.byBareName[name]];
        }
      } else {
        entries[k].MergeFields(info);
      }
    }

    method MergeEntries(other: Cache, ghost c: Index, ghost o: Index)
      requires Valid() && other.Valid() && other != this
      requires entries.Values !! other.entries.Values
      requires c == View() && o == other.View()
      modifies this`entries, this`byBareName, entries.Values
      ensures Valid() && entries.Values <= old(entries.Values) + other.entries.Values
      ensures View().entries == AptIndex.MergeFrom(c, o).entries
      ensures byBareName == AptIndex.MergeFrom(c, o).byBareName
    {
      hide MergedEntry, BareMerged, TakeBareName, Overlay, MergedSoFar;
      var todo := other.entries.Keys;
      assert todo == o.entries.Keys;
      MergeNothing(old(entries), other.entries, c, o);
      while todo != {}
        invariant todo <= other.entries.Keys && other.View() == o
        invariant entries == Overlay(old(entries), other.entries, todo)
        invariant View().entries == MergedSoFar(c, o, todo)
        invariant BareMerged(byBareName, c, o, o.entries.Keys - todo)
      {
        var k :| k in todo;
        OverlayStep(old(entries), other.entries, c, o, todo, k, View());
        OverlayDistinct(old(entries), other.entries, todo);
        BareMergedStep(byBareName, c, o, o.entries.Keys - todo, k);
        MergeKey(other, k);
        assert o.entries.Keys - (todo - {k}) == (o.entries.Keys - todo) + {k};
        todo := todo - {k};
      }
      assert o.entries.Keys - todo == o.entries.Keys;
      BareMergedAll(byBareName, c, o);
      MergedAll(c, o);
      OverlayDistinct(old(entries), other.entries, {});
    }

    method MergeProviders(more: map<string, seq<string>>)
      modifies this`providers
      ensures providers == map v | v in old(providers).Keys + more.Keys :: Get(old(providers), v) + Get(more, v)
    {
      var todo := more.Keys;
      while todo != {}
        invariant todo <= more.Keys
        invariant providers.Keys == old(providers).Keys + (more.Keys - todo)
        invariant forall v :: v in providers ==>
          providers[v] == Get(old(providers), v) + (if v in todo then [] else Get(more, v))
      {
        var v :| v in todo;
        providers := providers[v := Get(providers, v) + more[v]];
        todo := todo - {v};
      }
    }
  }

  /** partials[i] is the private cache of file i, once it has been parsed. */
  ghost predicate Parsed(partials: array<Cache?>, files: seq<seq<Stanza>>, i: nat)
    requires i < partials.Length == |files|
    reads partials, partials[i], if partials[i] == null then {} else partials[i].entries.Values
  {
    partials[i] != null && partials[i].Valid() && partials[i].View() == Build(FlushAll(Fresh, files[i]))
  }

  method ParsePartial(file: seq<Stanza>) returns (local: Cache)
    ensures fresh(local) && fresh(local.entries.Values) && local.Valid()
    ensures local.View() == Build(FlushAll(Fresh, file))
  {
    local := new Cache();
    BuildFresh();
    local.ParseFile(file, Fresh);
  }

  /** Workers parse the files into private caches, in whatever order they pick
      them up. */
  method ParsePartials(files: seq<seq<Stanza>>) returns (partials: array<Cache?>)
    ensures fresh(partials) && partials.Length == |files|
    ensures forall i :: 0 <= i < |files| ==>
      Parsed(partials, files, i) && fresh(partials[i]) && fresh(partials[i].entries.Values)
    ensures forall i, j :: 0 <= i < j < |files| ==>
      partials[i] != partials[j] && partials[i].entries.Values !! partials[j].entries.Values
  {
    hide Build, FlushAll;
    partials := new Cache?[|files|](_ => null);
    var jobs: set<nat> := {};
    for i := 0 to |files|
      invariant forall j: nat :: j in jobs <==> j < i
    {
      jobs := jobs + {i};
    }
    while jobs != {}
      invariant forall i :: i in jobs ==> i < |files|
      invariant forall i: nat :: i < |files| && i !in jobs ==>
        Parsed(partials, files, i) && fresh(partials[i]) && fresh(partials[i].entries.Values)
      invariant forall i: nat, j: nat :: i < j < |files| && i !in jobs && j !in jobs ==>
        partials[i] != partials[j] && partials[i].entries.Values !! partials[j].entries.Values
    {
      var idx :| idx in jobs;
      partials[idx] := ParsePartial(files[idx]);
      jobs := jobs - {idx};
    }
  }

  lemma BuildFresh()
    ensures Build(Fresh) == EMPTY && LoadSchedule([]) == Fresh
  {
  }

  lemma LoadSnoc(files: seq<seq<Stanza>>, i: nat)
    requires i < |files|
    ensures Build(LoadSchedule(files[..i + 1]))
         == AptIndex.MergeFrom(Build(LoadSchedule(files[..i])), Build(FlushAll(Fresh, files[i])))
  {
    assert files[..i + 1][..i] == files[..i];
  }

  /** Parse every file, then merge the private caches in file order. */
  method LoadAptLists(c: Cache, files: seq<seq<Stanza>>)
    requires c.Valid() && c.View() == EMPTY
    modifies c, c.entries.Values
    ensures c.Valid() && c.View() == Build(LoadSchedule(files))
  {
    hide Build, FlushAll, LoadSchedule, AptIndex.MergeFrom;
    var partials := ParsePartials(files);
    BuildFresh();
    assert files[..0] == [];
    var i := 0;
    while i < |files|
      invariant 0 <= i <= |files|
      invariant c.Valid() && c.View() == Build(LoadSchedule(files[..i]))
      invariant forall j :: i <= j < |files| ==> Parsed(partials, files, j) && partials[j] != c
      invariant forall j, k :: i <= j < k < |files| ==>
        partials[j] != partials[k] && partials[j].entries.Values !! partials[k].entries.Values
      invariant forall j :: i <= j < |files| ==> c.entries.Values !! partials[j].entries.Values
      invariant fresh(c.entries.Values - old(c.entries.Values))
      invariant forall j :: i <= j < |files| ==> fresh(partials[j].entries.Values)
    {
      LoadSnoc(files, i);
      c.MergeFrom(partials[i]);
      i := i + 1;
    }
    assert files[..i] == files;
  }

  /** The records once the keys of `more` outside `todo` have been taken over. */
  function Overlay(mine: map<string, Entry>, more: map<string, Entry>, todo: set<string>): map<string, Entry> {
    (map k | k in more && k !in todo :: more[k]) + mine
  }

  /** The entries at that point, as values. */
  function MergedSoFar(c: Index, o: Index, todo: set<string>): map<string, PackageInfo> {
    map k | k in c.entries.Keys + (o.entries.Keys - todo) :: if k in todo then c.entries[k] else MergedEntry(c, o, k)
  }

  lemma MergeNothing(mine: map<string, Entry>, more: map<string, Entry>, c: Index, o: Index)
    requires more.Keys == o.entries.Keys
    ensures Overlay(mine, more, more.Keys) == mine
    ensures MergedSoFar(c, o, o.entries.Keys) == c.entries
    ensures BareMerged(c.byBareName, c, o, o.entries.Keys - o.entries.Keys)
  {
    assert o.entries.Keys - o.entries.Keys == {};
    NoBareMerged(c, o);
    hide MergedEntry, BareMerged;
  }

  lemma NoBareMerged(c: Index, o: Index)
    ensures BareMerged(c.byBareName, c, o, {})
  {
    hide NewKeys, BareMergedAt;
    forall n
      ensures BareMergedAt(c.byBareName, c, o, {}, n)
    {
      NoBareMergedAt(c, o, n);
    }
  }

  lemma NoBareMergedAt(c: Index, o: Index, n: string)
    ensures BareMergedAt(c.byBareName, c, o, {}, n)
  {
    hide NewKeys;
    assert NewKeys(c, o, n) * {} == {};
    RepeatStep(Get(o.byBareName, n), 0);
    hide Repeat;
  }

  lemma OverlayStep(mine: map<string, Entry>, more: map<string, Entry>, c: Index, o: Index, todo: set<string>, k: string, now: Index)
    requires mine.Keys == c.entries.Keys && more.Keys == o.entries.Keys && k in todo && k in more
    requires now.entries == MergedSoFar(c, o, todo)
    ensures var m := Overlay(mine, more, todo);
            Overlay(mine, more, todo - {k}) == if k in m then m else m[k := more[k]]
    ensures k in Overlay(mine, more, todo) <==> k in c.entries
    ensures MergedSoFar(c, o, todo - {k}) == now.entries[k := MergedEntry(now, o, k)]
  {
    OverlayTakes(mine, more, todo, k);
    MergedTakes(c, o, todo, k, now);
    hide *;
  }

  lemma OverlayTakes(mine: map<string, Entry>, more: map<string, Entry>, todo: set<string>, k: string)
    requires k in todo && k in more
    ensures var m := Overlay(mine, more, todo);
            Overlay(mine, more, todo - {k}) == if k in m then m else m[k := more[k]]
    ensures k in Overlay(mine, more, todo) <==> k in mine
  {
  }

  lemma MergedTakes(c: Index, o: Index, todo: set<string>, k: string, now: Index)
    requires k in todo && k in o.entries && now.entries == MergedSoFar(c, o, todo)
    ensures MergedSoFar(c, o, todo - {k}) == now.entries[k := MergedEntry(now, o, k)]
  {
    assert MergedEntry(now, o, k) == MergedEntry(c, o, k);
    hide MergedEntry;
  }

  lemma SameIndex(a: Index, b: Index)
    requires a.entries == b.entries && a.providers == b.providers && a.byBareName == b.byBareName
    ensures a == b
  {
  }

  lemma ProvidersOfMerge(c: Index, o: Index)
    ensures AptIndex.MergeFrom(c, o).providers
         == map v | v in c.providers.Keys + o.providers.Keys :: Get(c.providers, v) + Get(o.providers, v)
  {
    hide MergedEntry, NewKeys, Repeat;
  }

  lemma MergedAll(c: Index, o: Index)
    ensures MergedSoFar(c, o, {}) == AptIndex.MergeFrom(c, o).entries
  {
    hide MergedEntry;
  }

  ghost predicate Unshared(m: map<string, Entry>) {
    forall j, k :: j in m && k in m && j != k ==> m[j] != m[k]
  }

  lemma OverlayDistinct(mine: map<string, Entry>, more: map<string, Entry>, todo: set<string>)
    requires Unshared(mine) && Unshared(more) && mine.Values !! more.Values
    ensures var now := Overlay(mine, more, todo);
      && Unshared(now) && now.Values <= mine.Values + more.Values
      && forall k :: k in todo && k in now ==> now[k] in mine.Values
  {
    forall j, k | j in mine && k in more
      ensures mine[j] != more[k]
    {
      assert mine[j] in mine.Values && more[k] in more.Values;
    }
  }

  /** The secondary index after the new keys in `done` have been taken over. */
  ghost predicate BareMergedAt(bare: map<string, seq<string>>, c: Index, o: Index, done: set<string>, n: string) {
    var taken := NewKeys(c, o, n) * done;
    && (n in bare <==> n in c.byBareName || (n in o.byBareName && taken != {}))
    && (n in bare ==> bare[n] == Get(c.byBareName, n) + Repeat(Get(o.byBareName, n), |taken|))
  }

  ghost predicate BareMerged(bare: map<string, seq<string>>, c: Index, o: Index, done: set<string>) {
    forall n :: BareMergedAt(bare, c, o, done, n)
  }

  function TakeBareName(bare: map<string, seq<string>>, more: map<string, seq<string>>, name: string): map<string, seq<string>> {
    if name in more then bare[name := Get(bare, name) + more[name]] else bare
  }

  /** One more key done adds it to the new keys of its own name only. */
  lemma NewKeysStep(c: Index, o: Index, done: set<string>, k: string, n: string)
    requires k in o.entries && k !in done
    ensures NewKeys(c, o, n) * (done + {k})
         == NewKeys(c, o, n) * done + (if k !in c.entries && n == o.entries[k].name then {k} else {})
  {
  }

  lemma BareMergedStep(bare: map<string, seq<string>>, c: Index, o: Index, done: set<string>, k: string)
    requires BareMerged(bare, c, o, done) && k in o.entries && k !in done
    ensures BareMerged(if k in c.entries then bare else TakeBareName(bare, o.byBareName, o.entries[k].name), c, o, done + {k})
  {
    hide BareMergedAt, TakeBareName;
    var next := if k in c.entries then bare else TakeBareName(bare, o.byBareName, o.entries[k].name);
    forall n
      ensures BareMergedAt(next, c, o, done + {k}, n)
    {
      BareMergedStepAt(bare, c, o, done, k, n);
    }
  }

  lemma BareMergedStepAt(bare: map<string, seq<string>>, c: Index, o: Index, done: set<string>, k: string, n: string)
    requires BareMergedAt(bare, c, o, done, n) && k in o.entries && k !in done
    ensures BareMergedAt(if k in c.entries then bare else TakeBareName(bare, o.byBareName, o.entries[k].name), c, o, done + {k}, n)
  {
    var name := o.entries[k].name;
    NewKeysStep(c, o, done, k, n);
    if k !in c.entries && n == name {
      BareTakenAt(bare, c, o, done, k, n);
    } else {
      var taken := NewKeys(c, o, n) * done;
      assert taken + {} == taken;
      hide NewKeys, Repeat;
    }
  }

  lemma BareTakenAt(bare: map<string, seq<string>>, c: Index, o: Index, done: set<string>, k: string, n: string)
    requires BareMergedAt(bare, c, o, done, n) && k !in done
    requires NewKeys(c, o, n) * (done + {k}) == NewKeys(c, o, n) * done + {k}
    ensures BareMergedAt(TakeBareName(bare, o.byBareName, n), c, o, done + {k}, n)
  {
    hide NewKeys, Repeat;
    var taken := NewKeys(c, o, n) * done;
    assert |taken + {k}| == |taken| + 1;
    RepeatStep(Get(o.byBareName, n), |taken|);
  }

  lemma RepeatStep(s: seq<string>, n: nat)
    ensures Repeat(s, n + 1) == Repeat(s, n) + s && Repeat(s, 0) == []
  {
  }

  lemma BareMergedAll(bare: map<string, seq<string>>, c: Index, o: Index)
    requires BareMerged(bare, c, o, o.entries.Keys)
    ensures bare == AptIndex.MergeFrom(c, o).byBareName
  {
    var all := AptIndex.MergeFrom(c, o).byBareName;
    forall n
      ensures n in bare <==> n in all
      ensures n in bare ==> bare[n] == all[n]
    {
      assert BareMergedAt(bare, c, o, o.entries.Keys, n);
      assert NewKeys(c, o, n) * o.entries.Keys == NewKeys(c, o, n);
    }
  }
}
