/** The merged apt and dpkg index as a value: what flushing a stanza and merging
    a privately parsed cache do to it, and what every such run keeps. */
module AptIndex {
  import opened Text
  import opened DebVersion

  const ARCH_ALL: string := "all"

  datatype PackageInfo = PackageInfo(
    name: string,
    architecture: string,
    essential: bool,
    multiArch: string,
    installed: bool,
    hasCandidate: bool,
    filename: string,
    sha256: string,
    size: int,
    baseURL: string,
    depends: seq<string>,
    preDepends: seq<string>,
    version: string)
  {
    predicate MultiArchForeign() {
      Lower(multiArch) == "foreign" || Lower(multiArch) == "allowed"
    }
  }

  /** The zero value a new entry starts from. */
  const BLANK: PackageInfo := PackageInfo("", "", false, "", false, false, "", "", 0, "", [], [], "")

  /** The fields taken from one deb822 stanza. A stanza has a version exactly when
      its Version field is not empty. */
  datatype Stanza = Stanza(
    pkgName: string,
    arch: string,
    multiArch: string,
    providesList: string,
    depends: string,
    preDepends: string,
    essential: bool,
    installed: bool,
    version: string,
    filename: string,
    sha256: string,
    size: int,
    baseURL: string)

  datatype Index = Index(
    entries: map<string, PackageInfo>,
    providers: map<string, seq<string>>,
    byBareName: map<string, seq<string>>)

  const EMPTY: Index := Index(map[], map[], map[])

  // ---- keys ----------------------------------------------------------------

  function EntryKey(name: string, arch: string): string {
    if arch == "" || arch == ARCH_ALL then name else Qualified(name, arch)
  }

  function Qualified(name: string, arch: string): string {
    name + ":" + arch
  }

  /** A colon-free name can be read back from its key. */
  lemma KeyGivesName(name: string, arch: string)
    requires ':' !in name
    ensures Before(EntryKey(name, arch), ':') == name
    ensures EntryKey(name, arch) == name <==> arch == "" || arch == ARCH_ALL
    ensures EntryKey(name, arch) != name ==> ':' in EntryKey(name, arch)
  {
    if EntryKey(name, arch) != name {
      var k := name + ":" + arch;
      assert k == name + [':'] + arch && k[|name|] == ':';
      IndexAfter(name, ':', arch);
      assert k[..|name|] == name;
    }
  }

  /** Keys of colon-free names differ unless name and architecture agree. */
  lemma KeyInjective(n1: string, a1: string, n2: string, a2: string)
    requires ':' !in n1 && ':' !in n2
    requires EntryKey(n1, a1) == EntryKey(n2, a2)
    ensures n1 == n2
    ensures a1 == a2 || ((a1 == "" || a1 == ARCH_ALL) && (a2 == "" || a2 == ARCH_ALL))
  {
    KeyGivesName(n1, a1);
    KeyGivesName(n2, a2);
    if EntryKey(n1, a1) != n1 {
      assert (n1 + ":" + a1)[|n1| + 1..] == a1;
      assert (n2 + ":" + a2)[|n2| + 1..] == a2;
    }
  }

  // ---- one stanza into one entry -------------------------------------------

  function MergePackageInfo(e: PackageInfo, s: Stanza, dpkgStatus: bool): PackageInfo {
    var e1 := MergeHeader(e, s, dpkgStatus);
    if s.version == "" then e1
    else
      var e2 := e1.(hasCandidate := true);
      if e2.version != "" && CompareDebVersion(s.version, e2.version) <= 0 then e2
      else CopyStanzaArtifacts(e2, s)
  }

  function MergeHeader(e: PackageInfo, s: Stanza, dpkgStatus: bool): PackageInfo {
    e.(name := s.pkgName,
       architecture := if s.arch != "" then s.arch else e.architecture,
       essential := e.essential || s.essential,
       multiArch := if s.multiArch != "" then s.multiArch else e.multiArch,
       installed := e.installed || (dpkgStatus && s.installed))
  }

  function CopyStanzaArtifacts(e: PackageInfo, s: Stanza): PackageInfo {
    e.(version := s.version,
       filename := if s.filename != "" then s.filename else e.filename,
       sha256 := if s.sha256 != "" then s.sha256 else e.sha256,
       size := if s.size > 0 then s.size else e.size,
       baseURL := if s.baseURL != "" then s.baseURL else e.baseURL,
       depends := if s.depends != "" then ParseDepends(s.depends) else e.depends,
       preDepends := if s.preDepends != "" then ParseDepends(s.preDepends) else e.preDepends)
  }

  /** One item of a Depends field: first alternative, no constraint, no qualifier. */
  function DependName(item: string): (r: string)
    ensures ':' !in r
  {
    var p := Trim(item);
    DependHead(if '|' in p then Trim(Before(p, '|')) else p)
  }

  /** One alternative: no constraint, no qualifier. */
  function DependHead(q: string): (r: string)
    ensures ':' !in r
  {
    Before(if '(' in q then Trim(Before(q, '(')) else q, ':')
  }

  function ParseDepends(value: string): (r: seq<string>)
    ensures forall d :: d in r ==> d != "" && ':' !in d
  {
    if value == "" then [] else DependNames(Split(value, ','))
  }

  function DependNames(items: seq<string>): (r: seq<string>)
    ensures forall d :: d in r ==> d != "" && ':' !in d
  {
    if items == [] then []
    else
      var d := DependName(items[0]);
      (if d != "" then [d] else []) + DependNames(items[1..])
  }

  /** One relationship of a Depends field as it is written (Debian Policy section 7.1): a
      name, an architecture qualifier, a version constraint, and alternatives. */
  datatype Relation = Relation(name: string, qualifier: Option<string>, constraint: Option<string>, others: Option<string>)
  {
    function Qualified(): string {
      name + if qualifier.Some? then [':'] + qualifier.value else ""
    }

    function Constrained(): string {
      if constraint.Some? then Qualified() + " " + ['('] + (constraint.value + ")") else Qualified()
    }

    function Text(): string {
      if others.Some? then Constrained() + " " + ['|'] + others.value else Constrained()
    }

    predicate Plain() {
      && Word(name) && (qualifier.Some? ==> Word(qualifier.value))
      && (constraint.Some? ==> '|' !in constraint.value)
      && (others.Some? ==> others.value != "" && !IsSpace(others.value[|others.value| - 1]))
    }
  }

  /** Nonempty, trimmed, without the characters that end a name. */
  predicate Word(s: string) {
    s != "" && Trimmed(s) && ':' !in s && '(' !in s && '|' !in s
  }

  lemma TrimBack(s: string)
    requires Trimmed(s)
    ensures Trim(s + " ") == s && Trim(s) == s
  {
    TrimSpaceSuffix(s, ' ');
    TrimOfTrimmed(s);
    assert s + [' '] == s + " ";
  }

  lemma RelationParts(r: Relation)
    requires r.Plain()
    ensures Trimmed(r.Qualified()) && '(' !in r.Qualified() && '|' !in r.Qualified()
    ensures Trimmed(r.Constrained()) && '|' !in r.Constrained() && Trimmed(r.Text())
    ensures Before(r.Qualified(), ':') == r.name
  {
    if r.qualifier.Some? {
      BeforeAt(r.name, ':', r.qualifier.value);
    } else {
      assert r.Qualified() == r.name;
      BeforeNothing(r.name, ':');
    }
    hide Before;
    var q := r.Qualified();
    assert Trimmed(q) && q != "" && q[0] == r.name[0];
    assert Trimmed(r.Constrained()) && r.Constrained() != "" && r.Constrained()[0] == r.name[0];
  }

  lemma ConstraintCut(r: Relation)
    requires r.Plain()
    ensures DependHead(r.Constrained()) == r.name
  {
    RelationParts(r);
    if r.constraint.Some? {
      BeforeAt(r.Qualified() + " ", '(', r.constraint.value + ")");
      TrimBack(r.Qualified());
    }
    hide Before, Trim;
  }

  /** A dependency is read as the name of its first alternative. */
  lemma DependIsName(r: Relation)
    requires r.Plain()
    ensures DependName(r.Text()) == r.name && DependName(" " + r.Text()) == r.name
  {
    RelationParts(r);
    TrimOfTrimmed(r.Text());
    TrimSpacePrefix(' ', r.Text());
    assert [' '] + r.Text() == " " + r.Text();
    ConstraintCut(r);
    if r.others.Some? {
      BeforeAt(r.Constrained() + " ", '|', r.others.value);
      TrimBack(r.Constrained());
    }
    hide Before, Trim, DependHead;
  }

  /** The items of a Depends field, a blank after every comma. */
  function Items(rs: seq<Relation>): (r: seq<string>)
    ensures |r| == |rs|
  {
    if rs == [] then [] else [" " + rs[0].Text()] + Items(rs[1..])
  }

  function NamesOf(rs: seq<Relation>): seq<string> {
    if rs == [] then [] else [rs[0].name] + NamesOf(rs[1..])
  }

  lemma {:induction false} ItemsAreNames(rs: seq<Relation>)
    requires forall r :: r in rs ==> r.Plain() && ',' !in r.Text()
    ensures DependNames(Items(rs)) == NamesOf(rs) && forall i :: i in Items(rs) ==> ',' !in i
  {
    hide DependName, Relation.Text, Relation.Plain;
    if rs != [] {
      assert rs[0] in rs;
      DependIsName(rs[0]);
      ItemsAreNames(rs[1..]);
      assert Items(rs)[1..] == Items(rs[1..]);
      assert rs[0].name != "" by { NameIsWord(rs[0]); }
    }
  }

  lemma NameIsWord(r: Relation)
    requires r.Plain()
    ensures r.name != ""
  {
  }

  /** A Depends field is read as the names of its relationships, in order. */
  lemma DependsAreNames(rs: seq<Relation>)
    requires rs != [] && forall r :: r in rs ==> r.Plain() && ',' !in r.Text()
    ensures ParseDepends(Join(Items(rs), ',')) == NamesOf(rs)
  {
    ItemsAreNames(rs);
    SplitJoin(Items(rs), ',');
    JoinStarts(Items(rs), ',');
    hide Items, Join, Split, DependNames, NamesOf, Relation.Text, Relation.Plain;
  }

  lemma JoinStarts(parts: seq<string>, c: char)
    requires parts != []
    ensures |Join(parts, c)| >= |parts[0]| && (|parts| > 1 ==> Join(parts, c) != "")
  {
  }

  /** A capability is read without its version. */
  lemma ProvideIsName(name: string, version: string)
    requires Word(name)
    ensures ProvideName(name) == name && ProvideName(" " + name + " (" + version + ")") == name
  {
    var s := name + " (" + (version + ")");
    TrimOfTrimmed(name);
    TrimOfTrimmed(s);
    TrimSpacePrefix(' ', s);
    assert [' '] + s == " " + name + " (" + version + ")";
    NoParen(name, "");
    assert name + "" == name;
    hide Trim;
    BeforeSubNothing(name, " (");
    NoParen(name, " (" + (version + ")"));
    assert name + (" (" + (version + ")")) == s;
    BeforeSubAt(name, " (", version + ")");
    hide BeforeSub;
  }

  lemma NoParen(name: string, rest: string)
    requires '(' !in name && (rest == "" || rest[0] == ' ')
    ensures forall i :: 0 <= i < |name| ==> !(" (" <= (name + rest)[i..])
  {
    var s := name + rest;
    forall i | 0 <= i < |name|
      ensures !(" (" <= s[i..])
    {
      BeginsAt(s, " (", i);
      assert i + 1 < |name| ==> s[i + 1] == name[i + 1];
    }
  }

  /** Multi-Arch: foreign and allowed, in any spelling, serve all architectures; same does
      not. */
  lemma MultiArchValues(e: PackageInfo)
    ensures e.multiArch == "foreign" || e.multiArch == "Foreign" || e.multiArch == "allowed" ==> e.MultiArchForeign()
    ensures e.multiArch == "same" || e.multiArch == "" ==> !e.MultiArchForeign()
  {
    assert Lower("Foreign") == "foreign" && Lower("foreign") == "foreign" && Lower("allowed") == "allowed";
    assert |Lower(e.multiArch)| == |e.multiArch|;
  }

  // ---- one entry into another ----------------------------------------------

  predicate InfoArtifactsWin(e: PackageInfo, i: PackageInfo) {
    if e.version == "" && i.version == "" then
      i.filename != "" || i.sha256 != "" || i.size > 0 || |i.depends| > 0 || |i.preDepends| > 0
    else if e.version == "" then true
    else if i.version == "" then false
    else CompareDebVersion(i.version, e.version) >= 0
  }

  function CopyInfoArtifacts(e: PackageInfo, i: PackageInfo): PackageInfo {
    e.(version := if i.version != "" then i.version else e.version,
       filename := if i.filename != "" then i.filename else e.filename,
       baseURL := if i.filename != "" && i.baseURL != "" && i.architecture != "" && i.architecture != ARCH_ALL
                  then i.baseURL else e.baseURL,
       sha256 := if i.sha256 != "" then i.sha256 else e.sha256,
       size := if i.size > 0 then i.size else e.size,
       depends := if |i.depends| > 0 then i.depends else e.depends,
       preDepends := if |i.preDepends| > 0 then i.preDepends else e.preDepends)
  }

  function MergeEntryFields(e: PackageInfo, i: PackageInfo): PackageInfo {
    var e1 := e.(architecture := if i.architecture != "" then i.architecture else e.architecture,
                 multiArch := if i.multiArch != "" then i.multiArch else e.multiArch,
                 essential := e.essential || i.essential,
                 hasCandidate := e.hasCandidate || i.hasCandidate);
    if InfoArtifactsWin(e1, i) then CopyInfoArtifacts(e1, i) else e1
  }

  // ---- the index -----------------------------------------------------------

  function Get(m: map<string, seq<string>>, k: string): seq<string> {
    if k in m then m[k] else []
  }

  function AddToBareName(m: map<string, seq<string>>, name: string, key: string): map<string, seq<string>> {
    if key != name then m[name := Get(m, name) + [key]] else m
  }

  /** One item of a Provides field, without its version constraint. */
  function ProvideName(item: string): string {
    Trim(BeforeSub(Trim(item), " ("))
  }

  function AddProvider(m: map<string, seq<string>>, v: string, pkg: string): map<string, seq<string>> {
    if v == "" then m else m[v := Get(m, v) + [pkg]]
  }

  function AddProviders(m: map<string, seq<string>>, items: seq<string>, pkg: string): map<string, seq<string>>
    decreases |items|
  {
    if items == [] then m
    else AddProvider(AddProviders(m, items[..|items| - 1], pkg), ProvideName(items[|items| - 1]), pkg)
  }

  function FlushProvides(m: map<string, seq<string>>, pkg: string, list: string): map<string, seq<string>> {
    if list == "" then m else AddProviders(m, Split(list, ','), pkg)
  }

  function EntryOr(ix: Index, key: string): PackageInfo {
    if key in ix.entries then ix.entries[key] else BLANK
  }

  function FlushStanza(ix: Index, s: Stanza, dpkgStatus: bool): Index {
    if s.pkgName == "" then ix
    else
      var key := EntryKey(s.pkgName, s.arch);
      Index(ix.entries[key := MergePackageInfo(EntryOr(ix, key), s, dpkgStatus)],
            FlushProvides(ix.providers, s.pkgName, s.providesList),
            AddToBareName(ix.byBareName, s.pkgName, key))
  }

  function AddEntry(ix: Index, info: PackageInfo): Index {
    var key := EntryKey(info.name, info.architecture);
    Index(ix.entries[key := info], ix.providers, AddToBareName(ix.byBareName, info.name, key))
  }

  /** The keys of `from` that are new and carry this bare name. */
  function NewKeys(c: Index, from: Index, name: string): set<string> {
    set k | k in from.entries && k !in c.entries && from.entries[k].name == name
  }

  function Repeat(s: seq<string>, n: nat): seq<string> {
    if n == 0 then [] else Repeat(s, n - 1) + s
  }

  function MergedEntry(c: Index, from: Index, k: string): PackageInfo
    requires k in c.entries || k in from.entries
  {
    if k !in c.entries then from.entries[k]
    else if k !in from.entries then c.entries[k]
    else MergeEntryFields(c.entries[k], from.entries[k])
  }

  /** Fold a privately parsed cache into c. The loop over `from` takes its keys in
      no particular order; the result does not depend on it. Every new key
      appends the whole list of keys its bare name has in `from`. */
  function MergeFrom(c: Index, from: Index): Index {
    Index(
      map k | k in c.entries.Keys + from.entries.Keys :: MergedEntry(c, from, k),
      map v | v in c.providers.Keys + from.providers.Keys :: Get(c.providers, v) + Get(from.providers, v),
      map n | n in c.byBareName.Keys + (set m | m in from.byBareName && NewKeys(c, from, m) != {})
        :: Get(c.byBareName, n) + Repeat(Get(from.byBareName, n), |NewKeys(c, from, n)|))
  }

  /** Where a lookup by name ends: the key of the entry found. A qualified name is
      tried as it is, then without its qualifier. */
  function Lookup(ix: Index, host: string, name: string): Option<string> {
    if ':' in name && name in ix.entries then Some(name)
    else
      var n := Before(name, ':');
      if n in ix.entries then Some(n)
      else if Qualified(n, host) in ix.entries then Some(Qualified(n, host))
      else if Qualified(n, ARCH_ALL) in ix.entries then Some(Qualified(n, ARCH_ALL))
      else ScanByName(ix, n)
  }

  function ScanByName(ix: Index, name: string): (r: Option<string>)
    ensures r.Some? ==> r.value in ix.entries
  {
    var keys := Get(ix.byBareName, name);
    if |keys| > 0 && keys[0] in ix.entries then Some(keys[0]) else None
  }

  // ---- what every run keeps ------------------------------------------------

  /** The bare name a key belongs to. */
  function BareName(k: string): string {
    Before(k, ':')
  }

  predicate EntryMatches(k: string, e: PackageInfo) {
    ':' !in e.name && k == EntryKey(e.name, e.architecture) && e.name == BareName(k)
  }

  ghost predicate KeysMatch(entries: map<string, PackageInfo>) {
    forall k :: k in entries ==> EntryMatches(k, entries[k])
  }

  /** The secondary index lists exactly the bare names of qualified keys, each
      with a nonempty list of stored keys. */
  ghost predicate BareExact(keys: set<string>, bare: map<string, seq<string>>) {
    && (forall n :: n in bare ==> |bare[n]| > 0)
    && (forall n, k :: n in bare && k in bare[n] ==> k in keys && BareName(k) == n && k != n)
    && (forall k :: k in keys && k != BareName(k) ==> BareName(k) in bare)
  }

  ghost predicate Stored(keys: set<string>, name: string) {
    exists k :: k in keys && BareName(k) == name
  }

  ghost predicate ProvidersStored(keys: set<string>, providers: map<string, seq<string>>) {
    forall v, p :: v in providers && p in providers[v] ==> Stored(keys, p)
  }

  /** Keys match their entries, the secondary index is exact, and every listed
      provider names a stored entry. */
  ghost predicate Coherent(ix: Index) {
    && KeysMatch(ix.entries)
    && BareExact(ix.entries.Keys, ix.byBareName)
    && ProvidersStored(ix.entries.Keys, ix.providers)
  }

  lemma {:induction false} AddProvidersAdds(m: map<string, seq<string>>, items: seq<string>, pkg: string, v: string, p: string)
    requires v in AddProviders(m, items, pkg) && p in AddProviders(m, items, pkg)[v]
    ensures p == pkg || (v in m && p in m[v])
    decreases |items|
  {
    hide ProvideName;
    if items != [] {
      var init := AddProviders(m, items[..|items| - 1], pkg);
      if v in init && p in init[v] {
        AddProvidersAdds(m, items[..|items| - 1], pkg, v, p);
      }
    }
  }

  lemma {:induction false} InRepeat(s: seq<string>, n: nat, x: string)
    ensures x in Repeat(s, n) <==> n > 0 && x in s
  {
    if n > 0 {
      InRepeat(s, n - 1, x);
    }
  }

  ghost predicate BareSound(keys: set<string>, n: string, list: seq<string>) {
    |list| > 0 && forall k :: k in list ==> k in keys && BareName(k) == n && k != n
  }

  lemma PutListSound(keys: set<string>, bare: map<string, seq<string>>, name: string, key: string, n: string)
    requires BareExact(keys, bare) && BareName(key) == name && n in AddToBareName(bare, name, key)
    ensures BareSound(keys + {key}, n, AddToBareName(bare, name, key)[n])
  {
    hide BareName;
    var list := AddToBareName(bare, name, key)[n];
    forall k | k in list
      ensures k in keys + {key} && BareName(k) == n && k != n
    {
      assert (n in bare && k in bare[n]) || (n == name && k == key && key != name);
    }
  }

  lemma PutKeepsBare(keys: set<string>, bare: map<string, seq<string>>, name: string, key: string)
    requires BareExact(keys, bare) && BareName(key) == name
    ensures BareExact(keys + {key}, AddToBareName(bare, name, key))
  {
    hide BareName;
    var bare' := AddToBareName(bare, name, key);
    forall n | n in bare'
      ensures BareSound(keys + {key}, n, bare'[n])
    {
      PutListSound(keys, bare, name, key, n);
    }
    forall k | k in keys + {key} && k != BareName(k)
      ensures BareName(k) in bare'
    {
      assert k in keys || k == key;
    }
  }

  lemma StoredGrows(keys: set<string>, more: set<string>, providers: map<string, seq<string>>)
    requires ProvidersStored(keys, providers) && keys <= more
    ensures ProvidersStored(more, providers)
  {
    forall v, p | v in providers && p in providers[v]
      ensures Stored(more, p)
    {
      assert Stored(keys, p);
      var k :| k in keys && BareName(k) == p;
      assert k in more;
    }
  }

  lemma FlushKeepsProviders(keys: set<string>, providers: map<string, seq<string>>, name: string, list: string)
    requires ProvidersStored(keys, providers) && Stored(keys, name)
    ensures ProvidersStored(keys, FlushProvides(providers, name, list))
  {
    var r := FlushProvides(providers, name, list);
    forall v, p | v in r && p in r[v]
      ensures Stored(keys, p)
    {
      if list != "" {
        AddProvidersAdds(providers, Split(list, ','), name, v, p);
      }
    }
  }

  lemma MergedInfoMatches(e: PackageInfo, s: Stanza, dpkgStatus: bool)
    requires ':' !in s.pkgName
    requires e == BLANK || EntryMatches(EntryKey(s.pkgName, s.arch), e)
    ensures EntryMatches(EntryKey(s.pkgName, s.arch), MergePackageInfo(e, s, dpkgStatus))
  {
    KeyGivesName(s.pkgName, s.arch);
  }

  lemma FlushKeepsCoherent(ix: Index, s: Stanza, dpkgStatus: bool)
    requires Coherent(ix) && ':' !in s.pkgName
    ensures Coherent(FlushStanza(ix, s, dpkgStatus))
  {
    if s.pkgName != "" {
      var key := EntryKey(s.pkgName, s.arch);
      var keys := ix.entries.Keys + {key};
      KeyGivesName(s.pkgName, s.arch);
      MergedInfoMatches(EntryOr(ix, key), s, dpkgStatus);
      PutKeepsBare(ix.entries.Keys, ix.byBareName, s.pkgName, key);
      StoredGrows(ix.entries.Keys, keys, ix.providers);
      assert key in keys && BareName(key) == s.pkgName;
      FlushKeepsProviders(keys, ix.providers, s.pkgName, s.providesList);
      assert FlushStanza(ix, s, dpkgStatus).entries.Keys == keys;
    }
  }

  lemma AddEntryKeepsCoherent(ix: Index, info: PackageInfo)
    requires Coherent(ix) && ':' !in info.name
    ensures Coherent(AddEntry(ix, info))
  {
    var key := EntryKey(info.name, info.architecture);
    var keys := ix.entries.Keys + {key};
    KeyGivesName(info.name, info.architecture);
    PutKeepsBare(ix.entries.Keys, ix.byBareName, info.name, key);
    StoredGrows(ix.entries.Keys, keys, ix.providers);
    assert AddEntry(ix, info).entries.Keys == keys;
  }

  /** What the merged list of a bare name holds. */
  lemma MergedList(c: Index, from: Index, n: string, k: string)
    ensures k in Get(MergeFrom(c, from).byBareName, n)
       <==> k in Get(c.byBareName, n) || (NewKeys(c, from, n) != {} && k in Get(from.byBareName, n))
  {
    var more := Repeat(Get(from.byBareName, n), |NewKeys(c, from, n)|);
    InRepeat(Get(from.byBareName, n), |NewKeys(c, from, n)|, k);
    assert NewKeys(c, from, n) != {} <==> |NewKeys(c, from, n)| > 0;
    assert n in MergeFrom(c, from).byBareName ==> MergeFrom(c, from).byBareName[n] == Get(c.byBareName, n) + more;
  }

  lemma MergedListSound(c: Index, from: Index, n: string)
    requires BareExact(c.entries.Keys, c.byBareName) && BareExact(from.entries.Keys, from.byBareName)
    requires n in MergeFrom(c, from).byBareName
    ensures BareSound(c.entries.Keys + from.entries.Keys, n, MergeFrom(c, from).byBareName[n])
  {
    hide BareName;
    var list := MergeFrom(c, from).byBareName[n];
    forall k | k in list
      ensures k in c.entries.Keys + from.entries.Keys && BareName(k) == n && k != n
    {
      MergedList(c, from, n, k);
    }
    var k := if n in c.byBareName then c.byBareName[n][0] else from.byBareName[n][0];
    MergedList(c, from, n, k);
  }

  lemma NewKeyIsListed(c: Index, from: Index, k: string)
    requires KeysMatch(from.entries) && BareExact(from.entries.Keys, from.byBareName)
    requires k in from.entries && k !in c.entries && k != BareName(k)
    ensures BareName(k) in MergeFrom(c, from).byBareName
  {
    assert EntryMatches(k, from.entries[k]);
    assert k in NewKeys(c, from, BareName(k));
  }

  lemma MergeKeepsBare(c: Index, from: Index)
    requires KeysMatch(from.entries)
    requires BareExact(c.entries.Keys, c.byBareName) && BareExact(from.entries.Keys, from.byBareName)
    ensures BareExact(c.entries.Keys + from.entries.Keys, MergeFrom(c, from).byBareName)
  {
    var keys, bare := c.entries.Keys + from.entries.Keys, MergeFrom(c, from).byBareName;
    forall n | n in bare
      ensures BareSound(keys, n, bare[n])
    {
      MergedListSound(c, from, n);
    }
    forall k | k in keys && k != BareName(k)
      ensures BareName(k) in bare
    {
      if k !in c.entries {
        NewKeyIsListed(c, from, k);
      }
    }
  }

  lemma MergedEntryMatches(c: Index, from: Index, k: string)
    requires KeysMatch(c.entries) && KeysMatch(from.entries) && (k in c.entries || k in from.entries)
    ensures EntryMatches(k, MergedEntry(c, from, k))
  {
    assert k in c.entries ==> EntryMatches(k, c.entries[k]);
    assert k in from.entries ==> EntryMatches(k, from.entries[k]);
  }

  lemma MergeKeepsProviders(c: Index, from: Index)
    requires ProvidersStored(c.entries.Keys, c.providers) && ProvidersStored(from.entries.Keys, from.providers)
    ensures ProvidersStored(c.entries.Keys + from.entries.Keys, MergeFrom(c, from).providers)
  {
    var keys := c.entries.Keys + from.entries.Keys;
    StoredGrows(c.entries.Keys, keys, c.providers);
    StoredGrows(from.entries.Keys, keys, from.providers);
  }

  lemma MergeKeepsCoherent(c: Index, from: Index)
    requires Coherent(c) && Coherent(from)
    ensures Coherent(MergeFrom(c, from))
  {
    var r := MergeFrom(c, from);
    assert r.entries.Keys == c.entries.Keys + from.entries.Keys;
    forall k | k in r.entries
      ensures EntryMatches(k, r.entries[k])
    {
      MergedEntryMatches(c, from, k);
    }
    MergeKeepsBare(c, from);
    MergeKeepsProviders(c, from);
  }

  /** The secondary index answers exactly as a scan over all entries would. */
  lemma ScanIsExact(ix: Index, name: string)
    requires Coherent(ix)
    ensures ScanByName(ix, name).Some? <==> exists k :: Carries(ix, k, name) && k != name
    ensures ScanByName(ix, name).Some? ==> Carries(ix, ScanByName(ix, name).value, name)
  {
    if name in ix.byBareName {
      var k := ix.byBareName[name][0];
      assert k in ix.byBareName[name];
      CarriedIsBareName(ix, k);
    }
    forall k | k in ix.entries
      ensures Carries(ix, k, BareName(k))
    {
      CarriedIsBareName(ix, k);
    }
  }

  ghost predicate Carries(ix: Index, k: string, name: string) {
    k in ix.entries && ix.entries[k].name == name
  }

  lemma CarriedIsBareName(ix: Index, k: string)
    requires Coherent(ix) && k in ix.entries
    ensures Carries(ix, k, BareName(k))
  {
    assert EntryMatches(k, ix.entries[k]);
  }

  lemma QualifiedBareName(name: string, arch: string)
    requires ':' !in name
    ensures BareName(Qualified(name, arch)) == name
  {
    IndexAfter(name, ':', arch);
    assert Qualified(name, arch) == name + [':'] + arch;
  }

  /** A name is found exactly when some stored entry carries it, a qualifier left off,
      and then the entry found carries it. */
  lemma LookupIsExact(ix: Index, host: string, name: string)
    requires Coherent(ix)
    ensures var r, n := Lookup(ix, host, name), Before(name, ':');
            && (r.Some? <==> exists k :: Carries(ix, k, n))
            && (r.Some? ==> Carries(ix, r.value, n))
  {
    var n := Before(name, ':');
    ScanIsExact(ix, n);
    QualifiedBareName(n, host);
    QualifiedBareName(n, ARCH_ALL);
    BeforeNothing(n, ':');
    hide Before, ScanByName, Qualified, EntryMatches;
    var r := Lookup(ix, host, name);
    if r.Some? && r != ScanByName(ix, n) {
      CarriedIsBareName(ix, r.value);
    }
    if r.None? {
      forall k
        ensures !Carries(ix, k, n)
      {
        if Carries(ix, k, n) {
          assert false;
        }
      }
    }
  }

  /** The name rebuilt from an entry (name, or name:arch) looks that entry up. */
  lemma RebuiltNameFindsEntry(ix: Index, host: string, k: string)
    requires Coherent(ix) && k in ix.entries
    ensures Lookup(ix, host, EntryKey(ix.entries[k].name, ix.entries[k].architecture)) == Some(k)
  {
    var e := ix.entries[k];
    assert EntryMatches(k, e);
    KeyGivesName(e.name, e.architecture);
  }
}
