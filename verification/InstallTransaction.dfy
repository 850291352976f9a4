/** An install transaction over the dpkg status file: two updates per package, each
    a rewrite of the whole file, and what a crash at any moment leaves behind. */
module InstallTransaction {
  import opened Text
  import opened Deb822
  import opened DpkgStatus
  import opened FileSystem
  import opened StatusWriter

  const UNPACKED := "install ok unpacked"
  const INSTALLED := "install ok installed"

  // ---- updates ------------------------------------------------------------------------

  datatype Update = Update(name: string, arch: string, control: string, status: string)

  function MergeAll(ss: seq<Stanza>): Fields {
    if ss == [] then map[] else MergeAll(ss[..|ss| - 1]) + ss[|ss| - 1]
  }

  /** The fields of a control file, all its stanzas merged. */
  function ParseControl(control: string): Fields {
    MergeAll(Parse(control))
  }

  function NewEntry(u: Update): Fields {
    var f := ParseControl(u.control)["Status" := u.status]["Package" := u.name];
    if u.arch != "" then f["Architecture" := u.arch] else f
  }

  /** The entries as an update holds them in memory. */
  function Stored(db: Db, u: Update): Db {
    db[KeyFor(u.name, u.arch) := NewEntry(u)]
  }

  /** What a reader finds after these entries have been written. */
  ghost function Rewritten(db: Db): Db {
    ReadStatus(StatusText(db))
  }

  ghost function Apply(db: Db, u: Update): Db {
    Rewritten(Stored(db, u))
  }

  ghost function ApplyAll(db: Db, us: seq<Update>): Db {
    if us == [] then db else Apply(ApplyAll(db, us[..|us| - 1]), us[|us| - 1])
  }

  lemma {:induction false} ApplyAllAppend(db: Db, us: seq<Update>, vs: seq<Update>)
    ensures ApplyAll(db, us + vs) == ApplyAll(ApplyAll(db, us), vs)
  {
    hide Apply;
    if vs == [] {
      assert us + vs == us;
    } else {
      assert (us + vs)[..|us + vs| - 1] == us + vs[..|vs| - 1];
      ApplyAllAppend(db, us, vs[..|vs| - 1]);
    }
  }

  lemma ApplyOne(db: Db, u: Update)
    ensures ApplyAll(db, [u]) == Apply(db, u)
  {
    assert [u][..0] == [];
    hide Apply;
  }

  /** A package as the program holds it: its index name and architecture, the control
      text of its archive, and whether it is marked Multi-Arch: same. */
  datatype Package = Package(name: string, arch: string, control: string, multiArchSame: bool)

  // ---- what a state of the disk says -------------------------------------------------------

  ghost predicate Safe(s: Files) {
    STATUS in s ==> s[STATUS].durable
  }

  /** The database a reader finds; no file means no entries. */
  function ReadFrom(s: Files): Db {
    if STATUS in s then ReadStatus(s[STATUS].text) else map[]
  }

  /** The status file is safe and says that the first n updates happened. */
  ghost predicate At(s: Files, db: Db, us: seq<Update>, n: nat) {
    n <= |us| && Safe(s) && ReadFrom(s) == ApplyAll(db, us[..n])
  }

  /** Both states say that some first part of the updates happened, t as much as s or more. */
  ghost predicate Forward(s: Files, t: Files, db: Db, us: seq<Update>) {
    exists m: nat, n: nat :: m <= n && At(s, db, us, m) && At(t, db, us, n)
  }

  /** Since earlier the disk has only gone forward through the updates. */
  ghost predicate Advances(earlier: seq<Files>, later: seq<Files>, db: Db, us: seq<Update>) {
    Extends(earlier, later)
    && forall i, j :: |earlier| <= i <= j < |later| ==> Forward(later[i], later[j], db, us)
  }

  /** Whatever a crash leaves, the same database is read from it. */
  lemma CrashReadsTheSame(s: Files, after: Files)
    requires Safe(s) && Recovers(s, after)
    ensures ReadFrom(after) == ReadFrom(s)
  {
    hide ReadStatus;
  }

  lemma KeptReadsTheSame(s: Files, t: Files)
    requires KeepsFile(s, t, STATUS)
    ensures ReadFrom(s) == ReadFrom(t) && (Safe(s) ==> Safe(t))
  {
    hide ReadStatus;
  }

  lemma AtStart(s: Files, db: Db, us: seq<Update>)
    requires Safe(s) && ReadFrom(s) == db
    ensures At(s, db, us, 0)
  {
    assert ApplyAll(db, us[..0]) == db;
    hide ReadFrom;
  }

  lemma AtEnd(s: Files, db: Db, us: seq<Update>)
    requires Safe(s) && ReadFrom(s) == ApplyAll(db, us)
    ensures At(s, db, us, |us|)
  {
    assert us[..|us|] == us;
    hide ReadFrom, ApplyAll;
  }

  lemma AtFirst(s: Files, db: Db, us: seq<Update>, vs: seq<Update>, n: nat)
    requires At(s, db, us, n)
    ensures At(s, db, us + vs, n)
  {
    hide ReadFrom, ApplyAll, Safe;
    assert (us + vs)[..n] == us[..n];
  }

  lemma AtSecond(s: Files, db: Db, us: seq<Update>, vs: seq<Update>, n: nat)
    requires At(s, ApplyAll(db, us), vs, n)
    ensures At(s, db, us + vs, |us| + n)
  {
    hide ReadFrom, ApplyAll, Safe;
    ApplyAllAppend(db, us, vs[..n]);
    assert (us + vs)[..|us| + n] == us + vs[..n];
  }

  lemma ForwardFirst(s: Files, t: Files, db: Db, us: seq<Update>, vs: seq<Update>)
    requires Forward(s, t, db, us)
    ensures Forward(s, t, db, us + vs)
  {
    var m: nat, n: nat :| m <= n && At(s, db, us, m) && At(t, db, us, n);
    AtFirst(s, db, us, vs, m);
    AtFirst(t, db, us, vs, n);
    hide At;
  }

  lemma ForwardSecond(s: Files, t: Files, db: Db, us: seq<Update>, vs: seq<Update>)
    requires Forward(s, t, ApplyAll(db, us), vs)
    ensures Forward(s, t, db, us + vs)
  {
    hide At, ApplyAll;
    var m: nat, n: nat :| m <= n && At(s, ApplyAll(db, us), vs, m) && At(t, ApplyAll(db, us), vs, n);
    AtSecond(s, db, us, vs, m);
    AtSecond(t, db, us, vs, n);
  }

  lemma ForwardAcross(s: Files, t: Files, db: Db, us: seq<Update>, vs: seq<Update>)
    requires Forward(s, s, db, us) && Forward(t, t, ApplyAll(db, us), vs)
    ensures Forward(s, t, db, us + vs)
  {
    hide At, ApplyAll;
    var m: nat, m': nat :| m <= m' && At(s, db, us, m) && At(s, db, us, m');
    var n: nat, n': nat :| n <= n' && At(t, ApplyAll(db, us), vs, n) && At(t, ApplyAll(db, us), vs, n');
    AtFirst(s, db, us, vs, m);
    AtSecond(t, db, us, vs, n);
    AtIsPart(s, db, us, m);
  }

  lemma AtIsPart(s: Files, db: Db, us: seq<Update>, n: nat)
    requires At(s, db, us, n)
    ensures n <= |us|
  {
  }

  lemma ForwardJoins(a: seq<Files>, b: seq<Files>, c: seq<Files>, db: Db, us: seq<Update>, vs: seq<Update>, i: nat, j: nat)
    requires Advances(a, b, db, us) && Advances(b, c, ApplyAll(db, us), vs) && |a| <= i <= j < |c|
    ensures Forward(c[i], c[j], db, us + vs)
  {
    hide Forward, ApplyAll;
    assert i < |b| ==> c[i] == b[i];
    assert j < |b| ==> c[j] == b[j];
    if j < |b| {
      ForwardFirst(b[i], b[j], db, us, vs);
    } else if i >= |b| {
      ForwardSecond(c[i], c[j], db, us, vs);
    } else {
      assert Forward(b[i], b[i], db, us) && Forward(c[j], c[j], ApplyAll(db, us), vs);
      ForwardAcross(c[i], c[j], db, us, vs);
    }
  }

  /** One stretch of the run after another. */
  lemma AdvancesJoin(a: seq<Files>, b: seq<Files>, c: seq<Files>, db: Db, us: seq<Update>, vs: seq<Update>)
    requires Advances(a, b, db, us) && Advances(b, c, ApplyAll(db, us), vs)
    ensures Advances(a, c, db, us + vs)
  {
    ExtendsJoin(a, b, c);
    forall i, j | |a| <= i <= j < |c|
      ensures Forward(c[i], c[j], db, us + vs)
    {
      hide Forward, ApplyAll, Advances;
      ForwardJoins(a, b, c, db, us, vs, i, j);
    }
    hide Forward, ApplyAll;
  }

  lemma ExtendsJoin(a: seq<Files>, b: seq<Files>, c: seq<Files>)
    requires Extends(a, b) && Extends(b, c)
    ensures Extends(a, c)
  {
    assert c[..|a|] == b[..|a|];
  }

  // ---- the operations ------------------------------------------------------------------------

  lemma ReadNext(stanzas: seq<Stanza>, i: nat)
    requires i < |stanzas|
    ensures AddStanzas(map[], stanzas[..i + 1]) == AddStanza(AddStanzas(map[], stanzas[..i]), stanzas[i])
    ensures MergeAll(stanzas[..i + 1]) == MergeAll(stanzas[..i]) + stanzas[i]
  {
    assert stanzas[..i + 1][..i] == stanzas[..i];
    hide AddStanza;
  }

  method ReadDpkgStatus(disk: Disk) returns (ok: bool, entries: Db)
    ensures ok ==> entries == ReadFrom(disk.files)
  {
    entries := map[];
    ok := true;
    if STATUS !in disk.files {
      return;
    }
    ok := *;
    if !ok {
      return;
    }
    var stanzas := ParseStanzas(disk.files[STATUS].text);
    assert AddStanzas(map[], stanzas[..0]) == map[];
    assert stanzas[..|stanzas|] == stanzas;
    hide AddStanzas, Parse;
    for i := 0 to |stanzas|
      invariant entries == AddStanzas(map[], stanzas[..i])
    {
      var fields := stanzas[i];
      ReadNext(stanzas, i);
      if Field(fields, "Package") == "" {
        continue;
      }
      var key := fields["Package"];
      if "Architecture" in fields && fields["Architecture"] != "" {
        key := key + ":" + fields["Architecture"];
      }
      entries := entries[key := fields];
    }
  }

  method ParseControlFields(control: string) returns (fields: Fields)
    ensures fields == ParseControl(control)
  {
    var stanzas := ParseStanzas(control);
    fields := map[];
    assert MergeAll(stanzas[..0]) == map[];
    assert stanzas[..|stanzas|] == stanzas;
    hide MergeAll, Parse;
    for i := 0 to |stanzas|
      invariant fields == MergeAll(stanzas[..i])
    {
      ReadNext(stanzas, i);
      fields := fields + stanzas[i];
    }
  }

  /** The updates that reach the status file: none when writing it is off. */
  function Written(write: bool, us: seq<Update>): seq<Update> {
    if write then us else []
  }

  lemma WrittenWhenAsked(write: bool)
    ensures forall us :: Written(write, us) == if write then us else []
  {
  }

  /** updateDpkgStatusForPackage: read everything, replace one entry, record it in the
      other package database (which may fail), and rewrite the file when asked to. */
  method UpdateDpkgStatusForPackage(disk: Disk, u: Update, write: bool) returns (ok: bool)
    requires disk.Valid() && Safe(disk.files)
    modifies disk
    ensures disk.Valid() && Safe(disk.files)
    ensures Advances(old(disk.states), disk.states, old(ReadFrom(disk.files)), if write then [u] else [])
    ensures ReadFrom(disk.files) == ApplyAll(old(ReadFrom(disk.files)), if ok && write then [u] else [])
  {
    ghost var h, db := disk.states, ReadFrom(disk.files);
    UpdateFacts(h, db, u);
    assert Last(h) == disk.files;
    assert Written(true, [u]) == [u] && Written(false, [u]) == [];
    hide *;
    var entries: Db;
    ok, entries := ReadDpkgStatus(disk);
    if !ok {
      return;
    }
    var fields := BuildEntry(u);
    entries := entries[KeyFor(u.name, u.arch) := fields];
    ok := *;
    if ok && write {
      ok := WriteDpkgStatus(disk, entries);
      AfterRewrite(h, disk.states, db, u);
      if ok {
        NowReads(disk.files, entries);
      } else {
        KeptReadsTheSame(Last(h), disk.files);
      }
    }
  }

  lemma UpdateFacts(h: seq<Files>, db: Db, u: Update)
    requires h != []
    ensures ApplyAll(db, []) == db && ApplyAll(db, [u]) == Apply(db, u) == Rewritten(Stored(db, u))
    ensures Stored(db, u) == db[KeyFor(u.name, u.arch) := NewEntry(u)]
    ensures Advances(h, h, db, []) && Advances(h, h, db, [u])
  {
    hide Rewritten, NewEntry, KeyFor;
    ApplyOne(db, u);
  }

  method BuildEntry(u: Update) returns (fields: Fields)
    ensures fields == NewEntry(u)
  {
    hide ParseControl;
    fields := ParseControlFields(u.control);
    fields := fields["Status" := u.status];
    fields := fields["Package" := u.name];
    if u.arch != "" {
      fields := fields["Architecture" := u.arch];
    }
  }

  lemma NowReads(s: Files, db: Db)
    requires Holds(s, StatusText(db))
    ensures Safe(s) && ReadFrom(s) == Rewritten(db)
  {
    hide ReadStatus, StatusText;
  }

  lemma AfterRewrite(h: seq<Files>, later: seq<Files>, db: Db, u: Update)
    requires h != [] && Safe(Last(h)) && ReadFrom(Last(h)) == db
    requires OldThenNew(h, later, StatusText(Stored(db, u)))
    ensures Advances(h, later, db, [u])
  {
    hide Rewritten, Stored, StatusText, Safe, ReadFrom, KeepsFile, Holds, ApplyAll, At;
    ApplyOne(db, u);
    forall i | |h| <= i < |later|
      ensures KeepsFile(Last(h), later[i], STATUS) ==> At(later[i], db, [u], 0)
      ensures Holds(later[i], StatusText(Stored(db, u))) ==> At(later[i], db, [u], 1)
    {
      if KeepsFile(Last(h), later[i], STATUS) {
        KeptReadsTheSame(Last(h), later[i]);
        AtStart(later[i], db, [u]);
      }
      if Holds(later[i], StatusText(Stored(db, u))) {
        NowReads(later[i], Stored(db, u));
        AtEnd(later[i], db, [u]);
      }
    }
    forall i, j | |h| <= i <= j < |later|
      ensures Forward(later[i], later[j], db, [u])
    {
      if KeepsFile(Last(h), later[j], STATUS) {
        assert At(later[i], db, [u], 0) || i == |later| - 1;
        assert At(later[j], db, [u], 0);
      } else {
        assert At(later[j], db, [u], 1);
      }
    }
  }

  // ---- one package --------------------------------------------------------------------------

  function Mark(p: Package, status: string): Update {
    Update(p.name, p.arch, p.control, status)
  }

  /** A package is marked unpacked, and then by how its configuration went. */
  function PackagePlan(p: Package, configured: bool): seq<Update> {
    [Mark(p, UNPACKED), Mark(p, if configured then INSTALLED else UNPACKED)]
  }

  lemma OthersStand(h: seq<Files>, later: seq<Files>, us: seq<Update>)
    requires Extends(h, later) && Safe(Last(h))
    requires forall i :: |h| <= i < |later| ==> KeepsFile(Last(h), later[i], STATUS)
    ensures Advances(h, later, ReadFrom(Last(h)), us)
  {
    hide At, ReadFrom, Safe;
    forall i, j | |h| <= i <= j < |later|
      ensures Forward(later[i], later[j], ReadFrom(Last(h)), us)
    {
      KeptReadsTheSame(Last(h), later[i]);
      KeptReadsTheSame(Last(h), later[j]);
      AtStart(later[i], ReadFrom(Last(h)), us);
      AtStart(later[j], ReadFrom(Last(h)), us);
    }
  }

  /** Info files, preinst and unpacking, all of which may fail and none of which owns
      the status file. */
  method Elsewhere(disk: Disk) returns (ok: bool)
    requires disk.Valid() && Safe(disk.files)
    modifies disk
    ensures disk.Valid() && Safe(disk.files) && ReadFrom(disk.files) == old(ReadFrom(disk.files))
    ensures Advances(old(disk.states), disk.states, old(ReadFrom(disk.files)), [])
  {
    ghost var h := disk.states;
    disk.ChangeOthers(STATUS);
    OthersStand(h, disk.states, []);
    if |disk.states| == |h| {
      assert disk.states == h;
    } else {
      KeptReadsTheSame(Last(h), Last(disk.states));
    }
    ok := *;
  }

  lemma AdvancesMore(h: seq<Files>, later: seq<Files>, db: Db, us: seq<Update>, vs: seq<Update>)
    requires Advances(h, later, db, us)
    ensures Advances(h, later, db, us + vs)
  {
    hide Forward;
    forall i, j | |h| <= i <= j < |later|
      ensures Forward(later[i], later[j], db, us + vs)
    {
      ForwardFirst(later[i], later[j], db, us, vs);
    }
  }

  /** One more step of a run that has made the updates us so far. */
  ghost predicate SoFar(h: seq<Files>, disk: Disk, db: Db, us: seq<Update>)
    reads disk
  {
    && disk.Valid() && Safe(disk.files) && Advances(h, disk.states, db, us)
    && ReadFrom(disk.files) == ApplyAll(db, us)
  }

  /** Everything before the first status update, or the configuration script. */
  method RunElsewhere(disk: Disk, ghost h: seq<Files>, ghost db: Db, ghost us: seq<Update>) returns (ok: bool)
    requires SoFar(h, disk, db, us)
    modifies disk
    ensures SoFar(h, disk, db, us)
  {
    ghost var before := disk.states;
    hide Safe, ReadFrom, ApplyAll;
    ok := Elsewhere(disk);
    AdvancesJoin(h, before, disk.states, db, us, []);
    assert us + [] == us;
  }

  method MarkPackage(disk: Disk, u: Update, write: bool, ghost h: seq<Files>, ghost db: Db, ghost us: seq<Update>)
    returns (ok: bool)
    requires SoFar(h, disk, db, us)
    modifies disk
    ensures disk.Valid() && Safe(disk.files) && Advances(h, disk.states, db, us + Written(write, [u]))
    ensures ok ==> SoFar(h, disk, db, us + Written(write, [u]))
  {
    ghost var before := disk.states;
    hide Safe, ReadFrom, ApplyAll, Advances, Written;
    WrittenWhenAsked(write);
    ok := UpdateDpkgStatusForPackage(disk, u, write);
    AdvancesJoin(h, before, disk.states, db, us, Written(write, [u]));
    ApplyAllAppend(db, us, Written(write, [u]));
  }

  lemma PlanSplits(write: bool, p: Package, configured: bool)
    ensures Written(write, PackagePlan(p, configured))
         == Written(write, [Mark(p, UNPACKED)])
          + Written(write, [Mark(p, if configured then INSTALLED else UNPACKED)])
  {
  }

  lemma StartOfPackage(disk: Disk, db: Db)
    requires disk.Valid() && Safe(disk.files) && ReadFrom(disk.files) == db
    ensures SoFar(disk.states, disk, db, [])
  {
    hide ReadFrom;
  }

  /** Info files, preinst and the archive contents, in that order. */
  method Unpack(disk: Disk, ghost h: seq<Files>, ghost db: Db) returns (ok: bool)
    requires SoFar(h, disk, db, [])
    modifies disk
    ensures SoFar(h, disk, db, [])
  {
    hide *;
    ok := RunElsewhere(disk, h, db, []);
    if ok {
      ok := RunElsewhere(disk, h, db, []);
    }
    if ok {
      ok := RunElsewhere(disk, h, db, []);
    }
  }

  method UnpackAndMark(disk: Disk, p: Package, write: bool, ghost h: seq<Files>, ghost db: Db) returns (ok: bool)
    requires SoFar(h, disk, db, [])
    modifies disk
    ensures var first := Written(write, [Mark(p, UNPACKED)]);
      && disk.Valid() && Safe(disk.files) && Advances(h, disk.states, db, first)
      && (ok ==> SoFar(h, disk, db, first))
  {
    hide *;
    ghost var first := Written(write, [Mark(p, UNPACKED)]);
    ok := Unpack(disk, h, db);
    if ok {
      ok := MarkPackage(disk, Mark(p, UNPACKED), write, h, db, []);
      assert [] + first == first;
    } else {
      InMiddle(h, disk, db, [], first);
    }
  }

  /** The configuration script, whose failure only decides the final state, and the
      second update. */
  method Configure(disk: Disk, p: Package, write: bool, ghost h: seq<Files>, ghost db: Db, ghost us: seq<Update>)
    returns (ok: bool, configured: bool)
    requires SoFar(h, disk, db, us)
    modifies disk
    ensures var more := Written(write, [Mark(p, if configured then INSTALLED else UNPACKED)]);
      && disk.Valid() && Safe(disk.files) && Advances(h, disk.states, db, us + more)
      && (ok ==> SoFar(h, disk, db, us + more))
  {
    hide *;
    configured := RunElsewhere(disk, h, db, us);
    ok := MarkPackage(disk, Mark(p, if configured then INSTALLED else UNPACKED), write, h, db, us);
  }

  /** installPackage: a failing configuration script is not fatal, every other failure is. */
  method InstallPackage(disk: Disk, p: Package, write: bool) returns (ok: bool, configured: bool)
    requires disk.Valid() && Safe(disk.files)
    modifies disk
    ensures disk.Valid() && Safe(disk.files)
    ensures Advances(old(disk.states), disk.states, old(ReadFrom(disk.files)), if write then PackagePlan(p, configured) else [])
    ensures ok ==> ReadFrom(disk.files) == ApplyAll(old(ReadFrom(disk.files)), if write then PackagePlan(p, configured) else [])
  {
    WrittenWhenAsked(write);
    ghost var h, db, first := disk.states, ReadFrom(disk.files), Written(write, [Mark(p, UNPACKED)]);
    StartOfPackage(disk, db);
    configured := false;
    hide *;
    ok := UnpackAndMark(disk, p, write, h, db);
    if ok {
      ok, configured := Configure(disk, p, write, h, db, first);
      Arrived(h, disk, db, first + Written(write, [Mark(p, if configured then INSTALLED else UNPACKED)]), ok);
    } else {
      AdvancesMore(h, disk.states, db, first, Written(write, [Mark(p, UNPACKED)]));
    }
    PlanSplits(write, p, configured);
  }

  lemma InMiddle(h: seq<Files>, disk: Disk, db: Db, us: seq<Update>, vs: seq<Update>)
    requires SoFar(h, disk, db, us)
    ensures Advances(h, disk.states, db, us + vs) && disk.Valid() && Safe(disk.files)
    ensures us == [] ==> us + vs == vs
  {
    AdvancesMore(h, disk.states, db, us, vs);
  }

  lemma Arrived(h: seq<Files>, disk: Disk, db: Db, us: seq<Update>, ok: bool)
    requires ok ==> SoFar(h, disk, db, us)
    ensures ok ==> ReadFrom(disk.files) == ApplyAll(db, us)
  {
  }

  // ---- the whole transaction ------------------------------------------------------------------

  /** The control text the program uses for each package: archives are filed by name
      alone, so the last archive of a name stands for all of them. */
  function Filed(pkgs: seq<Package>): (r: map<string, string>)
    ensures forall p :: p in pkgs ==> p.name in r
  {
    if pkgs == [] then map[]
    else
      var p := pkgs[|pkgs| - 1];
      Filed(pkgs[..|pkgs| - 1])[p.name := p.control]
  }

  /** Every package gets the control text of its own archive exactly when no two
      archives of one name differ in it. */
  lemma {:induction false} OwnControlExactly(pkgs: seq<Package>)
    ensures (forall p :: p in pkgs ==> Filed(pkgs)[p.name] == p.control)
      <==> (forall p, q :: p in pkgs && q in pkgs && p.name == q.name ==> p.control == q.control)
  {
    forall n | n in Filed(pkgs)
      ensures exists p :: p in pkgs && p.name == n && p.control == Filed(pkgs)[n]
    {
      FiledFrom(pkgs, n);
    }
  }

  lemma {:induction false} FiledFrom(pkgs: seq<Package>, n: string)
    requires n in Filed(pkgs)
    ensures exists p :: p in pkgs && p.name == n && p.control == Filed(pkgs)[n]
  {
    var p := pkgs[|pkgs| - 1];
    if n != p.name {
      FiledFrom(pkgs[..|pkgs| - 1], n);
    } else {
      assert p in pkgs;
    }
  }

  /** Every update of the run, given how each configuration went. */
  function Plan(pkgs: seq<Package>, outcomes: seq<bool>): (r: seq<Update>)
    requires |outcomes| == |pkgs|
    ensures |r| == 2 * |pkgs|
  {
    if pkgs == [] then []
    else
      var n := |pkgs| - 1;
      Plan(pkgs[..n], outcomes[..n]) + PackagePlan(pkgs[n], outcomes[n])
  }

  lemma PlanSnoc(pkgs: seq<Package>, outcomes: seq<bool>, p: Package, configured: bool, write: bool)
    requires |outcomes| == |pkgs|
    ensures Written(write, Plan(pkgs + [p], outcomes + [configured]))
         == Written(write, Plan(pkgs, outcomes)) + Written(write, PackagePlan(p, configured))
  {
    assert (pkgs + [p])[..|pkgs|] == pkgs && (outcomes + [configured])[..|outcomes|] == outcomes;
  }

  /** Where a run over pkgs stands: outcomes tells of the packages done so far. */
  ghost predicate Stands(h: seq<Files>, disk: Disk, db: Db, pkgs: seq<Package>, outcomes: seq<bool>, write: bool)
    reads disk
  {
    |outcomes| <= |pkgs| && SoFar(h, disk, db, Written(write, Plan(pkgs[..|outcomes|], outcomes)))
  }

  /** What the run has gone through, even if it has just failed. */
  ghost predicate WentThrough(h: seq<Files>, disk: Disk, db: Db, pkgs: seq<Package>, outcomes: seq<bool>, write: bool)
    reads disk
  {
    && |outcomes| <= |pkgs| && disk.Valid()
    && Advances(h, disk.states, db, Written(write, Plan(pkgs[..|outcomes|], outcomes)))
  }

  /** One more package. */
  method InstallNext(disk: Disk, pkgs: seq<Package>, outcomes: seq<bool>, write: bool, ghost h: seq<Files>, ghost db: Db)
    returns (ok: bool, more: seq<bool>)
    requires |outcomes| < |pkgs| && Stands(h, disk, db, pkgs, outcomes, write)
    modifies disk
    ensures |more| == |outcomes| + 1
    ensures WentThrough(h, disk, db, pkgs, more, write) && (ok ==> Stands(h, disk, db, pkgs, more, write))
  {
    hide Advances, SoFar, Plan, Written, ReadFrom, ApplyAll, Safe, PackagePlan;
    ghost var before := disk.states;
    BeforePackage(h, disk, db, pkgs, outcomes, write);
    var configured;
    WrittenWhenAsked(write);
    ok, configured := InstallPackage(disk, pkgs[|outcomes|], write);
    more := outcomes + [configured];
    AfterPackage(h, before, disk, db, pkgs, outcomes, configured, write, ok);
  }

  /** The package loop. outcomes says, package by package as far as the run came,
      whether its configuration succeeded. Every state the disk goes through reads as
      the database at the start with some first part of the planned updates, and no
      later state with less of them. */
  method InstallPackages(disk: Disk, pkgs: seq<Package>, write: bool) returns (ok: bool, outcomes: seq<bool>)
    requires disk.Valid() && Safe(disk.files)
    modifies disk
    ensures disk.Valid() && |outcomes| <= |pkgs| && (ok ==> |outcomes| == |pkgs|)
    ensures Advances(old(disk.states), disk.states, old(ReadFrom(disk.files)),
                      if write then Plan(pkgs[..|outcomes|], outcomes) else [])
    ensures ok ==> ReadFrom(disk.files) == ApplyAll(old(ReadFrom(disk.files)), if write then Plan(pkgs, outcomes) else [])
  {
    WrittenWhenAsked(write);
    ghost var h, db := disk.states, ReadFrom(disk.files);
    outcomes := [];
    ok := true;
    NothingInstalled(h, disk, db, pkgs, write);
    hide *;
    while ok && |outcomes| < |pkgs|
      invariant |outcomes| <= |pkgs|
      invariant WentThrough(h, disk, db, pkgs, outcomes, write) && (ok ==> Stands(h, disk, db, pkgs, outcomes, write))
    {
      ok, outcomes := InstallNext(disk, pkgs, outcomes, write, h, db);
    }
    RunIsOver(h, disk, db, pkgs, outcomes, write, ok);
  }

  lemma NothingInstalled(h: seq<Files>, disk: Disk, db: Db, pkgs: seq<Package>, write: bool)
    requires disk.Valid() && Safe(disk.files) && ReadFrom(disk.files) == db && h == disk.states
    ensures Stands(h, disk, db, pkgs, [], write) && WentThrough(h, disk, db, pkgs, [], write)
  {
    hide ReadFrom;
    assert Written(write, Plan(pkgs[..0], [])) == [];
  }

  lemma RunIsOver(h: seq<Files>, disk: Disk, db: Db, pkgs: seq<Package>, outcomes: seq<bool>, write: bool, ok: bool)
    requires WentThrough(h, disk, db, pkgs, outcomes, write) && (ok ==> Stands(h, disk, db, pkgs, outcomes, write))
    ensures disk.Valid() && |outcomes| <= |pkgs|
    ensures Advances(h, disk.states, db, Written(write, Plan(pkgs[..|outcomes|], outcomes)))
    ensures ok && |outcomes| == |pkgs| ==> ReadFrom(disk.files) == ApplyAll(db, Written(write, Plan(pkgs, outcomes)))
  {
    hide Advances, ReadFrom, ApplyAll, Plan, Written;
    assert pkgs[..|pkgs|] == pkgs;
  }

  lemma AfterPackage(h: seq<Files>, before: seq<Files>, disk: Disk, db: Db, pkgs: seq<Package>, done: seq<bool>,
                     configured: bool, write: bool, ok: bool)
    requires |done| < |pkgs| && disk.Valid() && Safe(disk.files)
    requires var us, more := Written(write, Plan(pkgs[..|done|], done)), Written(write, PackagePlan(pkgs[|done|], configured));
      && Advances(h, before, db, us) && Advances(before, disk.states, ApplyAll(db, us), more)
      && (ok ==> ReadFrom(disk.files) == ApplyAll(ApplyAll(db, us), more))
    ensures var us := Written(write, Plan(pkgs[..|done| + 1], done + [configured]));
      Advances(h, disk.states, db, us) && (ok ==> SoFar(h, disk, db, us))
  {
    hide ReadFrom, ApplyAll, Plan, Advances, Safe, Written, PackagePlan;
    var p := pkgs[|done|];
    var us, more := Written(write, Plan(pkgs[..|done|], done)), Written(write, PackagePlan(p, configured));
    AdvancesJoin(h, before, disk.states, db, us, more);
    ApplyAllAppend(db, us, more);
    PlanSnoc(pkgs[..|done|], done, p, configured, write);
    assert pkgs[..|done|] + [p] == pkgs[..|done| + 1];
  }

  lemma BeforePackage(h: seq<Files>, disk: Disk, db: Db, pkgs: seq<Package>, outcomes: seq<bool>, write: bool)
    requires |outcomes| < |pkgs| && SoFar(h, disk, db, Written(write, Plan(pkgs[..|outcomes|], outcomes)))
    ensures disk.Valid() && Safe(disk.files)
    ensures ReadFrom(disk.files) == ApplyAll(db, Written(write, Plan(pkgs[..|outcomes|], outcomes)))
    ensures Advances(h, disk.states, db, Written(write, Plan(pkgs[..|outcomes|], outcomes)))
  {
  }

  /** Foreign packages stay out unless they can be installed next to the host's. */
  predicate Keepable(p: Package, host: string) {
    p.arch == "all" || p.arch == "" || p.arch == host || p.multiArchSame
  }

  function Filtered(pkgs: seq<Package>, host: string): seq<Package> {
    if pkgs == [] then []
    else
      var rest, p := Filtered(pkgs[..|pkgs| - 1], host), pkgs[|pkgs| - 1];
      if Keepable(p, host) then rest + [p] else rest
  }

  lemma {:induction false} FilteredExactly(pkgs: seq<Package>, host: string, p: Package)
    ensures multiset(Filtered(pkgs, host))[p] ==
      if p.arch == "all" || p.arch == "" || p.arch == host || p.multiArchSame then multiset(pkgs)[p] else 0
  {
    if pkgs != [] {
      FilteredExactly(pkgs[..|pkgs| - 1], host, p);
      assert pkgs == pkgs[..|pkgs| - 1] + [pkgs[|pkgs| - 1]];
      hide Keepable;
    }
  }

  /** What is kept stays in its order. */
  lemma {:induction false} FilteredKeepsOrder(a: seq<Package>, b: seq<Package>, host: string)
    ensures Filtered(a + b, host) == Filtered(a, host) + Filtered(b, host)
  {
    hide Keepable;
    if b == [] {
      assert a + b == a;
    } else {
      assert (a + b)[..|a + b| - 1] == a + b[..|b| - 1];
      FilteredKeepsOrder(a, b[..|b| - 1], host);
    }
  }

  method FilterForeignArchPackages(pkgs: seq<Package>, host: string) returns (kept: seq<Package>)
    ensures kept == Filtered(pkgs, host)
  {
    kept := [];
    assert Filtered(pkgs[..0], host) == [];
    assert pkgs[..|pkgs|] == pkgs;
    for i := 0 to |pkgs|
      invariant kept == Filtered(pkgs[..i], host)
    {
      assert pkgs[..i + 1][..i] == pkgs[..i];
      var p := pkgs[i];
      if p.arch == "all" || p.arch == "" || p.arch == host {
        kept := kept + [p];
        continue;
      }
      if p.multiArchSame {
        kept := kept + [p];
      }
    }
  }

  /** The packages with the control texts they are installed with. */
  function Prepared(pkgs: seq<Package>): (r: seq<Package>)
    ensures |r| == |pkgs|
  {
    seq(|pkgs|, i requires 0 <= i < |pkgs| => pkgs[i].(control := Filed(pkgs)[pkgs[i].name]))
  }

  /** InstallWithOptions from the resolved packages on: foreign ones are dropped, control
      texts are filed by name, and the packages are installed in order. */
  method InstallWithOptions(disk: Disk, resolved: seq<Package>, host: string, write: bool) returns (ok: bool, outcomes: seq<bool>)
    requires disk.Valid() && Safe(disk.files)
    modifies disk
    ensures var pkgs := Prepared(Filtered(resolved, host));
      && disk.Valid() && |outcomes| <= |pkgs| && (ok ==> |outcomes| == |pkgs|)
      && Advances(old(disk.states), disk.states, old(ReadFrom(disk.files)),
                  if write then Plan(pkgs[..|outcomes|], outcomes) else [])
      && (ok ==> ReadFrom(disk.files) == ApplyAll(old(ReadFrom(disk.files)), if write then Plan(pkgs, outcomes) else []))
  {
    hide ReadFrom, Plan, Advances, ApplyAll, Safe;
    var pkgs := FilterForeignArchPackages(resolved, host);
    var prepared := Prepare(pkgs);
    ok, outcomes := InstallPackages(disk, prepared, write);
  }

  /** The archives' control texts, filed by name and looked up again. */
  method Prepare(pkgs: seq<Package>) returns (prepared: seq<Package>)
    ensures prepared == Prepared(pkgs)
  {
    var debMetadata: map<string, string> := map[];
    for i := 0 to |pkgs|
      invariant debMetadata == Filed(pkgs[..i])
    {
      assert pkgs[..i + 1][..i] == pkgs[..i];
      debMetadata := debMetadata[pkgs[i].name := pkgs[i].control];
    }
    assert pkgs[..|pkgs|] == pkgs;
    prepared := [];
    for i := 0 to |pkgs|
      invariant prepared == Prepared(pkgs)[..i]
    {
      prepared := prepared + [pkgs[i].(control := debMetadata[pkgs[i].name])];
    }
  }

  /** The packages are installed as they were resolved exactly when no two of one name
      differ in their control text. */
  lemma PreparedExactly(pkgs: seq<Package>)
    ensures Prepared(pkgs) == pkgs
      <==> (forall p, q :: p in pkgs && q in pkgs && p.name == q.name ==> p.control == q.control)
  {
    OwnControlExactly(pkgs);
    if Prepared(pkgs) == pkgs {
      forall p | p in pkgs
        ensures Filed(pkgs)[p.name] == p.control
      {
        var i :| 0 <= i < |pkgs| && p == pkgs[i];
        assert Prepared(pkgs)[i] == pkgs[i];
      }
    }
  }

  /** Two archives of one name: the first package is installed with the control text of
      the second. */
  lemma LaterControlIsUsed(p: Package, q: Package)
    requires p.name == q.name
    ensures Prepared([p, q]) == [p.(control := q.control), q]
  {
    assert [p, q][..1] == [p];
  }

  // ---- what a crashed run leaves, package by package ---------------------------------------------

  /** Whatever a crash leaves of any state of a run, a reader finds the database at the
      start with some first part of the plan; a crash later in the run leaves as much of
      it or more. */
  lemma CrashedRunIsAPrefix(h: seq<Files>, states: seq<Files>, db: Db, us: seq<Update>,
                            i: nat, j: nat, first: Files, second: Files)
    requires Advances(h, states, db, us) && |h| <= i <= j < |states|
    requires Recovers(states[i], first) && Recovers(states[j], second)
    ensures exists m: nat, n: nat ::
      m <= n <= |us| && ReadFrom(first) == ApplyAll(db, us[..m]) && ReadFrom(second) == ApplyAll(db, us[..n])
  {
    hide ReadFrom, ApplyAll, Recovers, Safe;
    assert Forward(states[i], states[j], db, us);
    var m: nat, n: nat :| m <= n && At(states[i], db, us, m) && At(states[j], db, us, n);
    CrashReadsTheSame(states[i], first);
    CrashReadsTheSame(states[j], second);
  }

  // ---- what the updates do to the entries ------------------------------------------------------

  /** An entry written and read this many times. */
  function Settled(f: Fields, times: nat): Fields {
    if times == 0 then f else NormalFields(Settled(f, times - 1))
  }

  /** A field with a normal value is never changed, and no field comes or goes. */
  lemma {:induction false} SettledKeeps(f: Fields, times: nat, name: string)
    ensures Settled(f, times).Keys == f.Keys
    ensures name in f && Normalise(f[name]) == f[name] ==> Settled(f, times)[name] == f[name]
  {
    hide Normalise;
    if times > 0 {
      SettledKeeps(f, times - 1, name);
    }
  }

  /** An entry with normal values is never changed. */
  lemma {:induction false} NormalIsSettled(f: Fields, times: nat)
    requires NormalFields(f) == f
    ensures Settled(f, times) == f
  {
    hide NormalFields;
    if times > 0 {
      NormalIsSettled(f, times - 1);
    }
  }

  /** A name that survives printing, and an architecture that does, or none at all. */
  predicate Fits(u: Update) {
    && u.name != "" && Normalise(u.name) == u.name
    && (if u.arch != "" then Normalise(u.arch) == u.arch else Field(ParseControl(u.control), "Architecture") == "")
  }

  /** The key an update is stored under is the key its entry reads back under exactly
      when the architecture is given or the control text names none. */
  lemma KeyMatchesExactly(u: Update)
    ensures KeyOf(NewEntry(u)) == KeyFor(u.name, u.arch) <==>
      u.arch != "" || Field(ParseControl(u.control), "Architecture") == ""
  {
    hide ParseControl;
    var f, inner := NewEntry(u), Field(ParseControl(u.control), "Architecture");
    assert "Architecture" != "Status" && "Architecture" != "Package";
    if u.arch == "" && inner != "" {
      assert Field(f, "Architecture") == inner;
      assert |KeyOf(f)| > |u.name|;
    }
  }

  lemma {:induction false} MergeAllNames(ss: seq<Stanza>)
    requires forall s :: s in ss ==> NamesPrintable(s)
    ensures NamesPrintable(MergeAll(ss))
  {
    hide ValidName;
    if ss != [] {
      MergeAllNames(ss[..|ss| - 1]);
      assert ss[|ss| - 1] in ss;
    }
  }

  lemma ControlNames(control: string)
    ensures NamesPrintable(ParseControl(control))
  {
    hide Parse, ValidName;
    ParsedNamesAreValid(control);
    MergeAllNames(Parse(control));
  }

  lemma SetNames()
    ensures ValidName("Package") && ValidName("Status") && ValidName("Architecture")
  {
  }

  /** Whatever the control text, the field names of a new entry can be printed. */
  lemma NewEntryNames(u: Update)
    ensures NamesPrintable(NewEntry(u))
  {
    ControlNames(u.control);
    SetNames();
    hide ParseControl, ValidName;
  }

  /** A new entry fits under its key exactly when its name and architecture do. */
  lemma NewEntryIsKeyed(u: Update)
    ensures Keyed(KeyFor(u.name, u.arch), NewEntry(u)) <==> Fits(u)
  {
    KeyMatchesExactly(u);
    NewEntryNames(u);
    NewEntryFields(u);
    EmptyIsNormal();
    hide ParseControl, Normalise, NamesPrintable, KeyOf, NewEntry;
  }

  lemma NewEntryFields(u: Update)
    ensures Field(NewEntry(u), "Package") == u.name && Field(NewEntry(u), "Status") == u.status
    ensures Field(NewEntry(u), "Architecture") == if u.arch != "" then u.arch else Field(ParseControl(u.control), "Architecture")
  {
    hide ParseControl;
    assert "Architecture" != "Status" && "Architecture" != "Package" && "Status" != "Package";
  }

  /** The other fields of a new entry are those of the control text. */
  lemma NewEntryKeeps(u: Update, name: string)
    requires name != "Status" && name != "Package" && (name != "Architecture" || u.arch == "")
    ensures (name in NewEntry(u) <==> name in ParseControl(u.control))
    ensures name in NewEntry(u) ==> NewEntry(u)[name] == ParseControl(u.control)[name]
  {
    hide ParseControl;
  }

  /** A control text that prints these fields is read as these fields, with normal values. */
  lemma ControlIsRead(f: Fields)
    requires NamesPrintable(f) && "Package" in f
    ensures ParseControl(Unlines(StanzaLines(f))) == NormalFields(f)
  {
    ParseOfEntry(f);
    hide *;
    MergeOne(NormalFields(f));
    assert ParseControl(Unlines(StanzaLines(f))) == MergeAll(Parse(Unlines(StanzaLines(f)))) by { ControlIs(Unlines(StanzaLines(f))); }
  }

  lemma ControlIs(control: string)
    ensures ParseControl(control) == MergeAll(Parse(control))
  {
    hide Parse;
  }

  lemma MergeOne(s: Stanza)
    ensures MergeAll([s]) == s
  {
    assert [s][..0] == [] && map[] + s == s;
  }

  /** A trimmed value on one line is read back as it is. */
  lemma PlainIsNormal(value: string)
    requires '\n' !in value && Trimmed(value)
    ensures Normalise(value) == value
  {
    SplitWhole(value, '\n');
    TrimOfTrimmed(value);
    NormalExactly(value);
    hide Split, Normalise, Trim;
  }

  lemma StatusesAreNormal()
    ensures Normalise(UNPACKED) == UNPACKED && Normalise(INSTALLED) == INSTALLED
  {
    PlainIsNormal(UNPACKED);
    PlainIsNormal(INSTALLED);
    hide Normalise;
  }

  lemma NormalIsStorable(db: Db)
    requires Storable(db)
    ensures Storable(NormalDb(db))
  {
    forall k | k in db
      ensures Keyed(k, NormalFields(db[k]))
    {
      NormalIsKeyed(k, db[k]);
    }
    hide Keyed, NormalFields;
  }

  lemma NormalIsKeyed(k: string, f: Fields)
    requires Keyed(k, f)
    ensures Keyed(k, NormalFields(f))
  {
    NormalKeepsKey(k, f);
    hide NormalFields, KeyOf, NamesPrintable, NormalName, Field;
    ReadBackIsKeyed(f, k);
  }

  lemma NormalNameKept(f: Fields, name: string)
    requires NormalName(f, name)
    ensures Field(NormalFields(f), name) == Field(f, name)
  {
    hide Normalise;
  }

  lemma ReadBackIsKeyed(f: Fields, k: string)
    requires Field(f, "Package") != "" && NormalName(f, "Package") && NormalName(f, "Architecture")
    requires NamesPrintable(f) && KeyOf(NormalFields(f)) == k
    ensures Keyed(k, NormalFields(f))
  {
    hide NormalFields, KeyOf, NamesPrintable, Field, Normalise;
    NormalNameKept(f, "Package");
    NormalNameKept(f, "Architecture");
    NormalNamesPrintable(f);
  }

  lemma NormalNamesPrintable(f: Fields)
    requires NamesPrintable(f)
    ensures NamesPrintable(NormalFields(f))
  {
    hide ValidName, Normalise;
  }

  /** An update that fits, on a database whose keys do: on reading, its entry stands
      under its key, and every value is what a rewrite makes of it. */
  lemma UpdateIsRead(db: Db, u: Update)
    requires Storable(db) && Fits(u)
    ensures Apply(db, u) == NormalDb(Stored(db, u)) && Storable(Apply(db, u))
  {
    NewEntryIsKeyed(u);
    hide Keyed, NewEntry, KeyFor, NormalDb, Fits, Sorted, StatusLines, ReadStatus, Lists;
    var stored := Stored(db, u);
    PutKeepsStorable(db, KeyFor(u.name, u.arch), NewEntry(u));
    SortedLists(stored.Keys);
    AnyOrderReadsBack(stored, Sorted(stored.Keys));
    NormalIsStorable(stored);
  }

  lemma PutKeepsStorable(db: Db, k: string, f: Fields)
    requires Storable(db) && Keyed(k, f)
    ensures Storable(db[k := f])
  {
    hide Keyed;
  }

  /** The update is read exactly as it was stored exactly when every value in the file is
      normal. */
  lemma UpdateSurvivesExactly(db: Db, u: Update)
    requires Storable(db) && Fits(u)
    ensures Apply(db, u) == Stored(db, u) <==> ValuesNormal(Stored(db, u))
  {
    UpdateIsRead(db, u);
    NormalDbExactly(Stored(db, u));
    hide *;
  }

  /** A field of the control text that the program does not set itself. */
  predicate KeptField(u: Update, name: string) {
    name in ParseControl(u.control) && name != "Status" && name != "Package" && (name != "Architecture" || u.arch == "")
  }

  /** A new entry has normal values exactly when those kept from the control text are. */
  lemma NewEntryNormalExactly(u: Update)
    requires Normalise(u.name) == u.name && Normalise(u.arch) == u.arch && Normalise(u.status) == u.status
    ensures NormalFields(NewEntry(u)) == NewEntry(u)
       <==> forall k :: KeptField(u, k) ==> Normalise(ParseControl(u.control)[k]) == ParseControl(u.control)[k]
  {
    hide ParseControl, Normalise, NormalFields;
    var f, c := NewEntry(u), ParseControl(u.control);
    NormalFieldsExactly(f);
    assert forall k :: KeptField(u, k) ==> k in f && f[k] == c[k];
    assert forall k :: k in f && !KeptField(u, k) ==> f[k] == u.status || f[k] == u.name || f[k] == u.arch;
    assert forall k :: k in f && KeptField(u, k) ==> f[k] == c[k];
  }

  ghost predicate AllFit(us: seq<Update>) {
    forall u :: u in us ==> Fits(u)
  }

  lemma {:induction false} ApplyAllStorable(db: Db, us: seq<Update>)
    requires Storable(db) && AllFit(us)
    ensures Storable(ApplyAll(db, us))
  {
    hide Storable, Fits, Apply;
    if us != [] {
      ApplyAllStorable(db, us[..|us| - 1]);
      assert us[|us| - 1] in us;
      UpdateIsRead(ApplyAll(db, us[..|us| - 1]), us[|us| - 1]);
    }
  }

  lemma NormalEntry(db: Db, k: string)
    ensures Entry(NormalDb(db), k) == NormalFields(Entry(db, k)) && (k in NormalDb(db) <==> k in db)
  {
    hide Normalise;
  }

  /** The entry under k after one update more. */
  lemma OneMore(db: Db, us: seq<Update>, k: string)
    requires Storable(db) && AllFit(us) && us != []
    ensures var u, before := us[|us| - 1], ApplyAll(db, us[..|us| - 1]);
      && Entry(ApplyAll(db, us), k) == NormalFields(if KeyFor(u.name, u.arch) == k then NewEntry(u) else Entry(before, k))
      && (k in ApplyAll(db, us) <==> k == KeyFor(u.name, u.arch) || k in before)
  {
    var u, init := us[|us| - 1], us[..|us| - 1];
    assert u in us && AllFit(init);
    hide Storable, Fits, AllFit, Apply, NewEntry, KeyFor, NormalFields, NormalDb;
    ApplyAllStorable(db, init);
    UpdateIsRead(ApplyAll(db, init), u);
    NormalEntry(Stored(ApplyAll(db, init), u), k);
  }

  /** Entries no update names are never lost, and never changed where their values are
      normal, wherever the run is cut off. */
  lemma {:induction false} OthersAreUntouched(db: Db, us: seq<Update>, k: string)
    requires Storable(db) && AllFit(us) && forall u :: u in us ==> KeyFor(u.name, u.arch) != k
    ensures (k in ApplyAll(db, us) <==> k in db) && Entry(ApplyAll(db, us), k) == Settled(Entry(db, k), |us|)
    ensures NormalFields(Entry(db, k)) == Entry(db, k) ==> Entry(ApplyAll(db, us), k) == Entry(db, k)
  {
    hide Storable, Fits, NormalFields, Apply, KeyFor, NewEntry, Entry;
    if us != [] {
      assert us[|us| - 1] in us;
      OthersAreUntouched(db, us[..|us| - 1], k);
      OneMore(db, us, k);
    }
    if NormalFields(Entry(db, k)) == Entry(db, k) {
      NormalIsSettled(Entry(db, k), |us|);
    }
  }

  /** The last update of a key decides what is read under it. */
  lemma {:induction false} LastUpdateCounts(db: Db, us: seq<Update>, i: nat)
    requires Storable(db) && AllFit(us) && i < |us|
    requires forall j :: i < j < |us| ==> KeyFor(us[j].name, us[j].arch) != KeyFor(us[i].name, us[i].arch)
    ensures Entry(ApplyAll(db, us), KeyFor(us[i].name, us[i].arch)) == Settled(NewEntry(us[i]), |us| - i)
  {
    var n := |us| - 1;
    hide Storable, Fits, NormalFields, Apply, ApplyAll, KeyFor, NewEntry, Entry;
    OneMore(db, us, KeyFor(us[i].name, us[i].arch));
    if i < n {
      assert AllFit(us[..n]);
      LastUpdateCounts(db, us[..n], i);
    } else {
      assert Settled(NewEntry(us[i]), 0) == NewEntry(us[i]);
    }
  }

  // ---- an update without architecture whose control text names one -------------------------------

  lemma {:induction false} ExtensionSortsLater(name: string, more: string)
    requires more != ""
    ensures Compare(name, name + more) < 0
    decreases |name|
  {
    if name != "" {
      assert (name + more)[1..] == name[1..] + more;
      ExtensionSortsLater(name[1..], more);
    }
  }

  /** The entry is stored under the bare name and read back under the qualified one; an
      entry that is there already wins over it, and what stood under the bare name is
      gone. */
  lemma UnqualifiedUpdateMoves(db: Db, u: Update, arch: string)
    requires Storable(db) && u.name != "" && Normalise(u.name) == u.name
    requires u.arch == "" && Field(ParseControl(u.control), "Architecture") == arch != "" && Normalise(arch) == arch
    ensures var other, rest := KeyFor(u.name, arch), NormalDb(db - {u.name});
      Apply(db, u) == if other in db then rest else rest[other := NormalFields(NewEntry(u))]
  {
    var other, stored := KeyFor(u.name, arch), Stored(db, u);
    hide Normalise, ParseControl, NewEntry, NormalFields, ReadStatus, StatusText, Compare, NormalDb, Storable, OneMoves, KeyOf;
    MovedKey(u, arch);
    NewEntryNames(u);
    NewEntryFields(u);
    ExtensionSortsLater(u.name, ":" + arch);
    assert u.name + (":" + arch) == other;
    StoredMoves(db, u, other);
    MovedReadsBack(stored, u.name, other);
    assert stored - {u.name} == db - {u.name};
  }

  lemma StoredMoves(db: Db, u: Update, other: string)
    requires Storable(db) && u.arch == "" && other != u.name && KeyOf(NormalFields(NewEntry(u))) == other
    requires Field(NewEntry(u), "Package") != "" && NamesPrintable(NewEntry(u))
    ensures OneMoves(Stored(db, u), u.name, other)
  {
    hide NewEntry, NormalFields, KeyOf, NamesPrintable, NormalName;
  }

  lemma MovedKey(u: Update, arch: string)
    requires u.arch == "" && Normalise(u.name) == u.name && Normalise(arch) == arch != ""
    requires Field(ParseControl(u.control), "Architecture") == arch
    ensures KeyOf(NormalFields(NewEntry(u))) == KeyFor(u.name, arch) != u.name
  {
    NewEntryFields(u);
    hide ParseControl, Normalise;
    assert "Architecture" in NewEntry(u);
    assert |KeyFor(u.name, arch)| > |u.name|;
  }

  /** So such a package, not known before, is marked unpacked and stays so: the update
      that marks it installed is lost. */
  lemma UnqualifiedStaysUnpacked(db: Db, p: Package, arch: string)
    requires Storable(db) && p.name != "" && Normalise(p.name) == p.name && p.arch == "" && KeyFor(p.name, arch) !in db
    requires Field(ParseControl(p.control), "Architecture") == arch != "" && Normalise(arch) == arch
    ensures p.name !in ApplyAll(db, PackagePlan(p, true)) && KeyFor(p.name, arch) in ApplyAll(db, PackagePlan(p, true))
    ensures Field(ApplyAll(db, PackagePlan(p, true))[KeyFor(p.name, arch)], "Status") == UNPACKED
  {
    var u, v, other := Mark(p, UNPACKED), Mark(p, INSTALLED), KeyFor(p.name, arch);
    hide Normalise, ParseControl, NewEntry, NormalFields, Apply, NormalDb, Storable, KeyOf, KeyFor;
    MovedKey(u, arch);
    UnqualifiedUpdateMoves(db, u, arch);
    MovedIsStorable(db, u, arch);
    var first := Apply(db, u);
    UnqualifiedUpdateMoves(first, v, arch);
    NormalEntry(first - {p.name}, other);
    NormalEntry(first - {p.name}, p.name);
    assert PackagePlan(p, true)[..1] == [u];
    ApplyOne(db, u);
    StatusesAreNormal();
    MovedStatus(u);
  }

  lemma MovedStatus(u: Update)
    requires Normalise(u.status) == u.status
    ensures Field(NormalFields(NormalFields(NewEntry(u))), "Status") == u.status
  {
    NewEntryFields(u);
    hide Normalise, ParseControl;
  }

  lemma MovedIsStorable(db: Db, u: Update, arch: string)
    requires Storable(db) && u.name != "" && Normalise(u.name) == u.name
    requires u.arch == "" && Field(ParseControl(u.control), "Architecture") == arch != "" && Normalise(arch) == arch
    ensures Storable(NormalDb(db - {u.name})[KeyFor(u.name, arch) := NormalFields(NewEntry(u))])
  {
    hide Normalise, ParseControl, NewEntry, NormalFields, NormalDb, KeyOf, KeyFor, Keyed;
    MovedKey(u, arch);
    NewEntryNames(u);
    NewEntryFields(u);
    ReadBackIsKeyed(NewEntry(u), KeyFor(u.name, arch));
    NormalIsStorable(db - {u.name});
    PutKeepsStorable(NormalDb(db - {u.name}), KeyFor(u.name, arch), NormalFields(NewEntry(u)));
  }

  // ---- package by package --------------------------------------------------------------------------

  function PackageKey(p: Package): string {
    KeyFor(p.name, p.arch)
  }

  predicate PackageFits(p: Package) {
    Fits(Mark(p, UNPACKED))
  }

  /** Package i is the last one of its key among those the first n updates have reached. */
  ghost predicate LastOfKey(pkgs: seq<Package>, n: nat, i: nat)
    requires i < |pkgs|
  {
    2 * i < n && forall j :: i < j < |pkgs| && 2 * j < n ==> PackageKey(pkgs[j]) != PackageKey(pkgs[i])
  }

  /** The two updates of package i. */
  lemma {:induction false} PlanHalves(pkgs: seq<Package>, outcomes: seq<bool>, i: nat)
    requires |outcomes| == |pkgs| && i < |pkgs|
    ensures Plan(pkgs, outcomes)[2 * i] == Mark(pkgs[i], UNPACKED)
    ensures Plan(pkgs, outcomes)[2 * i + 1] == Mark(pkgs[i], if outcomes[i] then INSTALLED else UNPACKED)
  {
    hide Mark;
    var n := |pkgs| - 1;
    if i < n {
      PlanHalves(pkgs[..n], outcomes[..n], i);
    }
  }

  /** An update under p's key, which fits if p does. */
  predicate About(u: Update, p: Package) {
    KeyFor(u.name, u.arch) == PackageKey(p) && (PackageFits(p) ==> Fits(u))
  }

  lemma MarkIsAbout(p: Package, status: string)
    ensures About(Mark(p, status), p)
  {
    hide KeyFor, ParseControl, Normalise;
  }

  lemma HalvesAreAbout(pkgs: seq<Package>, outcomes: seq<bool>, i: nat)
    requires |outcomes| == |pkgs| && i < |pkgs|
    ensures About(Plan(pkgs, outcomes)[2 * i], pkgs[i]) && About(Plan(pkgs, outcomes)[2 * i + 1], pkgs[i])
  {
    PlanHalves(pkgs, outcomes, i);
    MarkIsAbout(pkgs[i], UNPACKED);
    MarkIsAbout(pkgs[i], if outcomes[i] then INSTALLED else UNPACKED);
    hide *;
  }

  /** The j-th update of a plan is about package j / 2. */
  lemma PlanIsAbout(pkgs: seq<Package>, outcomes: seq<bool>, j: nat)
    requires |outcomes| == |pkgs| && j < 2 * |pkgs|
    ensures About(Plan(pkgs, outcomes)[j], pkgs[j / 2])
  {
    hide *;
    HalvesAreAbout(pkgs, outcomes, j / 2);
    assert j == if j % 2 == 0 then 2 * (j / 2) else 2 * (j / 2) + 1;
  }

  lemma PlanFits(pkgs: seq<Package>, outcomes: seq<bool>, n: nat)
    requires |outcomes| == |pkgs| && n <= 2 * |pkgs| && forall p :: p in pkgs ==> PackageFits(p)
    ensures AllFit(Plan(pkgs, outcomes)[..n])
  {
    hide Plan, Fits, KeyFor, PackageFits;
    var us := Plan(pkgs, outcomes);
    forall u | u in us[..n]
      ensures Fits(u)
    {
      var j :| 0 <= j < n && us[j] == u;
      PlanIsAbout(pkgs, outcomes, j);
      assert pkgs[j / 2] in pkgs;
    }
  }

  /** A run cut off after n updates: what is read under the key of the last package of
      that key reached is its entry, marked unpacked if only its first update is in, and
      by its outcome otherwise; a package listed several times counts as its last
      listing. */
  lemma PrefixByPackage(db: Db, pkgs: seq<Package>, outcomes: seq<bool>, n: nat, i: nat)
    requires Storable(db) && |outcomes| == |pkgs| && n <= 2 * |pkgs| && i < |pkgs|
    requires (forall p :: p in pkgs ==> PackageFits(p)) && LastOfKey(pkgs, n, i)
    ensures Entry(ApplyAll(db, Plan(pkgs, outcomes)[..n]), PackageKey(pkgs[i])) ==
      if n == 2 * i + 1 then Settled(NewEntry(Mark(pkgs[i], UNPACKED)), 1)
      else Settled(NewEntry(Mark(pkgs[i], if outcomes[i] then INSTALLED else UNPACKED)), n - 2 * i - 1)
  {
    hide NewEntry, KeyFor, Plan, ApplyAll, Entry, Storable, Fits, Settled, PackageKey, PackageFits, Mark, LastOfKey;
    var us := Plan(pkgs, outcomes)[..n];
    var m := if n == 2 * i + 1 then 2 * i else 2 * i + 1;
    assert 2 * i < n by { Reached(pkgs, n, i); }
    PlanFits(pkgs, outcomes, n);
    PlanHalves(pkgs, outcomes, i);
    PlanIsAbout(pkgs, outcomes, m);
    assert m / 2 == i;
    LaterAreOthers(pkgs, outcomes, n, i, m);
    LastUpdateCounts(db, us, m);
  }

  lemma Reached(pkgs: seq<Package>, n: nat, i: nat)
    requires i < |pkgs| && LastOfKey(pkgs, n, i)
    ensures 2 * i < n
  {
  }

  lemma LaterAreOthers(pkgs: seq<Package>, outcomes: seq<bool>, n: nat, i: nat, m: nat)
    requires |outcomes| == |pkgs| && n <= 2 * |pkgs| && i < |pkgs| && LastOfKey(pkgs, n, i)
    requires m == if n == 2 * i + 1 then 2 * i else 2 * i + 1
    ensures forall j :: m < j < n ==> (var u := Plan(pkgs, outcomes)[j]; KeyFor(u.name, u.arch) != PackageKey(pkgs[i]))
  {
    hide KeyFor, Plan, PackageKey, PackageFits, Fits;
    forall j | m < j < n
      ensures var u := Plan(pkgs, outcomes)[j]; KeyFor(u.name, u.arch) != PackageKey(pkgs[i])
    {
      PlanIsAbout(pkgs, outcomes, j);
      Half(i, j, n);
    }
  }

  lemma Half(i: nat, j: nat, n: nat)
    requires 2 * i + 1 < j < n || (n == 2 * i + 1 && 2 * i < j < n)
    ensures i < j / 2 && 2 * (j / 2) < n
  {
  }

  /** A key none of whose packages has been reached is as it was. */
  lemma NotReachedIsUntouched(db: Db, pkgs: seq<Package>, outcomes: seq<bool>, n: nat, k: string)
    requires Storable(db) && |outcomes| == |pkgs| && n <= 2 * |pkgs| && forall p :: p in pkgs ==> PackageFits(p)
    requires forall j :: 0 <= j < |pkgs| && 2 * j < n ==> PackageKey(pkgs[j]) != k
    ensures Entry(ApplyAll(db, Plan(pkgs, outcomes)[..n]), k) == Settled(Entry(db, k), n)
  {
    hide NewEntry, KeyFor, Plan, ApplyAll, Apply, Entry, Storable, Fits, Settled;
    var us := Plan(pkgs, outcomes)[..n];
    PlanFits(pkgs, outcomes, n);
    forall u | u in us
      ensures KeyFor(u.name, u.arch) != k
    {
      var j :| 0 <= j < n && us[j] == u;
      PlanIsAbout(pkgs, outcomes, j);
    }
    OthersAreUntouched(db, us, k);
  }

  /** The status read for a package reached: unpacked between its two updates, then by
      its outcome. So no package is read as installed before it was marked unpacked. */
  lemma StatusByPackage(db: Db, pkgs: seq<Package>, outcomes: seq<bool>, n: nat, i: nat)
    requires Storable(db) && |outcomes| == |pkgs| && n <= 2 * |pkgs| && i < |pkgs|
    requires (forall p :: p in pkgs ==> PackageFits(p)) && LastOfKey(pkgs, n, i)
    ensures Field(Entry(ApplyAll(db, Plan(pkgs, outcomes)[..n]), PackageKey(pkgs[i])), "Status") ==
      if n > 2 * i + 1 && outcomes[i] then INSTALLED else UNPACKED
  {
    PrefixByPackage(db, pkgs, outcomes, n, i);
    hide NewEntry, Normalise, ApplyAll, Plan, Fits, Storable, PackageKey, Entry, Settled;
    StatusesAreNormal();
    var u := Mark(pkgs[i], if n > 2 * i + 1 && outcomes[i] then INSTALLED else UNPACKED);
    NewEntryFields(u);
    SettledKeeps(NewEntry(u), if n == 2 * i + 1 then 1 else n - 2 * i - 1, "Status");
  }
}
