/** The dpkg status database: how it is read from text, how it is printed, and
    that reading undoes printing. */
module DpkgStatus {
  import opened Text
  import opened Deb822

  type Fields = map<string, string>

  /** Entries by package name, qualified by architecture when there is one. */
  type Db = map<string, Fields>

  // ---- reading ------------------------------------------------------------------

  function Field(f: Fields, name: string): string {
    if name in f then f[name] else ""
  }

  function KeyFor(name: string, arch: string): string {
    if arch != "" then name + ":" + arch else name
  }

  function KeyOf(f: Fields): string {
    KeyFor(Field(f, "Package"), Field(f, "Architecture"))
  }

  function AddStanza(db: Db, s: Stanza): Db {
    if Field(s, "Package") == "" then db else db[KeyOf(s) := s]
  }

  function AddStanzas(db: Db, ss: seq<Stanza>): Db {
    if ss == [] then db else AddStanza(AddStanzas(db, ss[..|ss| - 1]), ss[|ss| - 1])
  }

  function ReadStatus(text: string): Db {
    AddStanzas(map[], Parse(text))
  }

  /** The stanza of a package, and the key it goes by. */
  predicate GoesBy(s: Stanza, k: string) {
    "Package" in s && s["Package"] != "" &&
    k == if "Architecture" in s && s["Architecture"] != "" then s["Package"] + ":" + s["Architecture"] else s["Package"]
  }

  /** What is read under a key is the last stanza that goes by it, if there is one. */
  lemma {:induction false} LastStanzaIsRead(ss: seq<Stanza>, k: string)
    ensures k in AddStanzas(map[], ss) <==> exists i :: 0 <= i < |ss| && GoesBy(ss[i], k)
    ensures forall i :: 0 <= i < |ss| && GoesBy(ss[i], k) && (forall j :: i < j < |ss| ==> !GoesBy(ss[j], k)) ==>
              AddStanzas(map[], ss)[k] == ss[i]
  {
    if ss != [] {
      var init, last := ss[..|ss| - 1], ss[|ss| - 1];
      LastStanzaIsRead(init, k);
      StanzaIsAdded(AddStanzas(map[], init), last, k);
      hide GoesBy, AddStanza;
      assert forall i :: 0 <= i < |init| ==> init[i] == ss[i];
    }
  }

  lemma StanzaIsAdded(db: Db, s: Stanza, k: string)
    ensures GoesBy(s, k) ==> k in AddStanza(db, s) && AddStanza(db, s)[k] == s
    ensures !GoesBy(s, k) ==> (k in AddStanza(db, s) <==> k in db) && (k in db ==> AddStanza(db, s)[k] == db[k])
  {
  }

  /** Packages are told apart by name and architecture. */
  lemma KeysDiffer(name: string, arch: string, other: string, otherArch: string)
    requires ':' !in name && ':' !in other && KeyFor(name, arch) == KeyFor(other, otherArch)
    ensures name == other && arch == otherArch
  {
    KeyCut(name, arch);
    KeyCut(other, otherArch);
  }

  lemma KeyCut(name: string, arch: string)
    requires ':' !in name
    ensures Before(KeyFor(name, arch), ':') == name
    ensures KeyFor(name, arch) == name <==> arch == ""
    ensures arch != "" ==> |KeyFor(name, arch)| == |name| + 1 + |arch| && KeyFor(name, arch)[|name| + 1..] == arch
  {
    BeforeAt(name, ':', arch);
    assert name + [':'] + arch == name + ":" + arch;
  }

  // ---- sorted listings ------------------------------------------------------------

  /** order names every key exactly once. */
  ghost predicate Lists(order: seq<string>, keys: set<string>) {
    Distinct(order) && forall k :: k in order <==> k in keys
  }

  ghost predicate IsLeast(k: string, keys: set<string>) {
    k in keys && forall j :: j in keys ==> Compare(k, j) <= 0
  }

  lemma {:induction false} LeastExists(keys: set<string>)
    requires keys != {}
    ensures exists k :: IsLeast(k, keys)
    decreases |keys|
  {
    var a :| a in keys;
    var rest := keys - {a};
    CompareEqual(a, a);
    if rest == {} {
      assert keys == {a};
      assert IsLeast(a, keys);
    } else {
      LeastExists(rest);
      var b :| IsLeast(b, rest);
      var c := if Compare(a, b) <= 0 then a else b;
      CompareSwap(a, b);
      hide Compare;
      forall j | j in keys
        ensures Compare(c, j) <= 0
      {
        if j != a && c == a {
          CompareTransitive(a, b, j);
        }
      }
      assert IsLeast(c, keys);
    }
  }

  lemma LeastUnique(a: string, b: string, keys: set<string>)
    requires IsLeast(a, keys) && IsLeast(b, keys)
    ensures a == b
  {
    CompareSwap(a, b);
    CompareEqual(a, b);
    hide Compare;
  }

  ghost function Least(keys: set<string>): (k: string)
    requires keys != {}
    ensures IsLeast(k, keys)
  {
    LeastExists(keys);
    var k :| IsLeast(k, keys);
    k
  }

  /** The keys in byte order. */
  ghost function Sorted(keys: set<string>): seq<string> {
    if keys == {} then [] else [Least(keys)] + Sorted(keys - {Least(keys)})
  }

  lemma {:induction false} SortedLists(keys: set<string>)
    ensures Lists(Sorted(keys), keys)
  {
    if keys != {} {
      hide IsLeast, Least;
      SortedLists(keys - {Least(keys)});
    }
  }

  lemma SortedStep(todo: set<string>, k: string)
    requires IsLeast(k, todo)
    ensures Sorted(todo) == [k] + Sorted(todo - {k})
  {
    LeastUnique(k, Least(todo), todo);
    hide Compare, Least;
  }

  lemma EmptySorted()
    ensures Sorted({}) == []
  {
  }

  /** `sort.Strings` on the keys of a map. */
  method SortStrings(keys: set<string>) returns (order: seq<string>)
    ensures order == Sorted(keys)
  {
    order := [];
    var todo := keys;
    EmptySorted();
    while todo != {}
      invariant Sorted(keys) == order + Sorted(todo)
      decreases |todo|
    {
      hide Compare, Least, Sorted;
      LeastExists(todo);
      var k :| k in todo && forall j :: j in todo ==> Compare(k, j) <= 0;
      SortedStep(todo, k);
      TakeOver(order, k, Sorted(todo - {k}));
      order, todo := order + [k], todo - {k};
    }
  }

  // ---- printing -------------------------------------------------------------------

  const FIELD_ORDER: seq<string> := [
    "Package", "Architecture", "Multi-Arch", "Status", "Priority", "Section",
    "Installed-Size", "Maintainer", "Source", "Version", "Depends", "Pre-Depends",
    "Conflicts", "Breaks", "Replaces", "Provides", "Essential", "Description"]

  function Present(order: seq<string>, f: Fields): seq<string> {
    if order == [] then []
    else
      var init, last := order[..|order| - 1], order[|order| - 1];
      if last in f then Present(init, f) + [last] else Present(init, f)
  }

  /** The fields of an entry in printing order: the known ones first, the rest sorted. */
  ghost function PrintOrder(f: Fields): seq<string> {
    var known := Present(FIELD_ORDER, f);
    known + Sorted(set k | k in f && k !in known)
  }

  function EntryLines(f: Fields, order: seq<string>): seq<string> {
    if order == [] then []
    else
      var init, last := order[..|order| - 1], order[|order| - 1];
      EntryLines(f, init) + FieldLines(last, Field(f, last))
  }

  function Entry(db: Db, k: string): Fields {
    if k in db then db[k] else map[]
  }

  ghost function StanzaLines(f: Fields): seq<string> {
    EntryLines(f, PrintOrder(f)) + [""]
  }

  ghost function StatusLines(db: Db, order: seq<string>): seq<string> {
    if order == [] then []
    else StatusLines(db, order[..|order| - 1]) + StanzaLines(Entry(db, order[|order| - 1]))
  }

  /** The whole file, entries sorted by key. */
  ghost function StatusText(db: Db): string {
    Unlines(StatusLines(db, Sorted(db.Keys)))
  }

  lemma {:induction false} PresentIn(order: seq<string>, f: Fields)
    ensures forall k :: k in Present(order, f) <==> k in order && k in f
  {
    if order != [] {
      var init, last := order[..|order| - 1], order[|order| - 1];
      PresentIn(init, f);
      assert order == init + [last];
    }
  }

  lemma {:induction false} PresentDistinct(order: seq<string>, f: Fields)
    requires Distinct(order)
    ensures Distinct(Present(order, f))
  {
    if order != [] {
      var init, last := order[..|order| - 1], order[|order| - 1];
      PresentDistinct(init, f);
      PresentIn(init, f);
      assert last !in init;
    }
  }

  // Length, first and third letter tell the known fields apart.
  const LENGTHS: seq<nat> := [7, 12, 10, 6, 8, 7, 14, 10, 6, 7, 7, 11, 9, 6, 8, 8, 9, 11]
  const FIRSTS: string := "PAMSPSIMSVDPCBRPED"
  const THIRDS: string := "cclaicsiurpeneposs"

  lemma FieldShapes(k: nat)
    requires k < |FIELD_ORDER|
    ensures |FIELD_ORDER| == |LENGTHS| == |FIRSTS| == |THIRDS| == 18
    ensures |FIELD_ORDER[k]| == LENGTHS[k] && |FIELD_ORDER[k]| > 2
    ensures FIELD_ORDER[k][0] == FIRSTS[k] && FIELD_ORDER[k][2] == THIRDS[k]
  {
  }

  lemma ShapesDiffer(i: nat, j: nat)
    requires i < j < 18
    ensures LENGTHS[i] != LENGTHS[j] || FIRSTS[i] != FIRSTS[j] || THIRDS[i] != THIRDS[j]
  {
  }

  lemma FieldOrderIsDistinct()
    ensures Distinct(FIELD_ORDER)
  {
    hide FIELD_ORDER, LENGTHS, FIRSTS, THIRDS;
    forall i, j | 0 <= i < j < |FIELD_ORDER|
      ensures FIELD_ORDER[i] != FIELD_ORDER[j]
    {
      FieldShapes(i);
      FieldShapes(j);
      ShapesDiffer(i, j);
    }
  }

  lemma ListsAppend(a: seq<string>, b: seq<string>, ka: set<string>, kb: set<string>)
    requires Lists(a, ka) && Lists(b, kb) && ka !! kb
    ensures Lists(a + b, ka + kb)
  {
    forall i, j | 0 <= i < j < |a + b|
      ensures (a + b)[i] != (a + b)[j]
    {
      if i < |a| && j >= |a| {
        assert a[i] in ka && b[j - |a|] in kb;
      }
    }
  }

  /** Every field of an entry is printed exactly once. */
  lemma PrintOrderLists(f: Fields)
    ensures Lists(PrintOrder(f), f.Keys)
  {
    FieldOrderIsDistinct();
    PresentIn(FIELD_ORDER, f);
    PresentDistinct(FIELD_ORDER, f);
    var known := Present(FIELD_ORDER, f);
    var first, rest := set k | k in known, set k | k in f && k !in known;
    SortedLists(rest);
    ListsAppend(known, Sorted(rest), first, rest);
    assert first + rest == f.Keys;
    hide Present, Sorted;
  }

  lemma {:induction false} PresentFirst(order: seq<string>, f: Fields)
    requires order != [] && order[0] in f
    ensures Present(order, f) != [] && Present(order, f)[0] == order[0]
  {
    if |order| > 1 {
      PresentFirst(order[..|order| - 1], f);
    }
  }

  lemma PackageComesFirst(f: Fields)
    requires "Package" in f
    ensures PrintOrder(f) != [] && PrintOrder(f)[0] == "Package"
  {
    PresentFirst(FIELD_ORDER, f);
    hide Sorted, Present;
  }

  // ---- reading undoes printing --------------------------------------------------------

  ghost predicate NamesPrintable(f: Fields) {
    forall k :: k in f ==> ValidName(k)
  }

  /** The fields listed so far, with their values as they read back. */
  function NormalPart(f: Fields, order: seq<string>): Fields {
    if order == [] then map[]
    else
      var init, last := order[..|order| - 1], order[|order| - 1];
      NormalPart(f, init)[last := Normalise(Field(f, last))]
  }

  function NormalFields(f: Fields): Fields {
    map k | k in f :: Normalise(f[k])
  }

  lemma {:induction false} NormalPartAt(f: Fields, order: seq<string>, k: string)
    ensures k in NormalPart(f, order) <==> k in order
    ensures k in order ==> NormalPart(f, order)[k] == Normalise(Field(f, k))
  {
    hide Normalise, Field;
    if order != [] {
      var init, last := order[..|order| - 1], order[|order| - 1];
      NormalPartAt(f, init, k);
      assert k in order <==> k in init || k == last;
    }
  }

  lemma NormalPartIsNormalFields(f: Fields)
    ensures NormalPart(f, PrintOrder(f)) == NormalFields(f)
  {
    PrintOrderLists(f);
    hide PrintOrder, NormalPart, Normalise;
    var part, all := NormalPart(f, PrintOrder(f)), NormalFields(f);
    forall k
      ensures k in part <==> k in all
      ensures k in all ==> part[k] == all[k]
    {
      NormalPartAt(f, PrintOrder(f), k);
    }
  }

  lemma DropCRsAppend(a: seq<string>, b: seq<string>)
    ensures DropCRs(a + b) == DropCRs(a) + DropCRs(b)
  {
    hide DropCR;
  }

  /** Parsing the printed fields of an entry rebuilds them, the last one still in
      flight, in whatever order they are printed. */
  lemma {:induction false} RunEntry(start: Parser, f: Fields, order: seq<string>)
    requires start.field == "" && start.stanza == map[]
    requires NamesPrintable(f) && forall k :: k in order ==> k in f
    requires order != [] ==> order[0] != "" && order[0][0] != '#'
    ensures var p := Run(start, DropCRs(EntryLines(f, order)));
      && p.out == start.out && Flushed(p) == NormalPart(f, order)
      && (if order == [] then p == start else p.field != "")
  {
    if order == [] {
      assert DropCRs(EntryLines(f, order)) == [];
    } else {
      var init, last := order[..|order| - 1], order[|order| - 1];
      assert last in order && ValidName(last);
      assert init == [] ==> last == order[0];
      assert forall k :: k in init ==> k in order;
      RunEntry(start, f, init);
      var p := Run(start, DropCRs(EntryLines(f, init)));
      RunNextField(start, p, EntryLines(f, init), last, Field(f, last));
      FlushedField(p.out, Flushed(p), last, Normalise(Field(f, last)));
      hide Run, DropCRs, Normalise, FieldLines, ValidName, Flushed;
    }
  }

  lemma RunNextField(start: Parser, p: Parser, lines: seq<string>, name: string, value: string)
    requires p == Run(start, DropCRs(lines)) && ValidName(name) && (p.field == "" ==> name[0] != '#')
    ensures Run(start, DropCRs(lines + FieldLines(name, value))) == Parser(p.out, Flushed(p), name, Normalise(value))
  {
    hide Normalise, FieldLines, Run, DropCRs;
    var more := FieldLines(name, value);
    DropCRsAppend(lines, more);
    RunAppend(start, DropCRs(lines), DropCRs(more));
    RunField(p, name, value);
  }

  lemma FlushedField(out: seq<Stanza>, s: Stanza, name: string, value: string)
    requires name != ""
    ensures Flushed(Parser(out, s, name, value)) == s[name := value]
  {
  }

  lemma BlankLineDelivers(p: Parser)
    ensures Run(p, DropCRs([""])) == Parser(Deliver(p.out, Flushed(p)), map[], "", "")
  {
    assert DropCRs([""]) == [""];
    RunOne(p, "");
  }

  /** A printed entry comes back as one stanza with normal values: every field
      once, whatever its lines were. */
  lemma EntryRoundTrip(out: seq<Stanza>, f: Fields)
    requires NamesPrintable(f) && "Package" in f
    ensures Run(Parser(out, map[], "", ""), DropCRs(StanzaLines(f)))
         == Parser(out + [NormalFields(f)], map[], "", "")
  {
    PrintOrderLists(f);
    PackageComesFirst(f);
    NormalPartIsNormalFields(f);
    assert "Package" in NormalFields(f);
    hide PrintOrder, Normalise, ValidName, EntryLines, Run, DropCRs, NormalFields, NormalPart, Flushed;
    var start, lines := Parser(out, map[], "", ""), EntryLines(f, PrintOrder(f));
    RunEntry(start, f, PrintOrder(f));
    DropCRsAppend(lines, [""]);
    RunAppend(start, DropCRs(lines), DropCRs([""]));
    BlankLineDelivers(Run(start, DropCRs(lines)));
  }

  ghost predicate NormalName(f: Fields, name: string) {
    Normalise(Field(f, name)) == Field(f, name)
  }

  /** Fit to be stored under k: a package name, printable field names, and the two
      values the key is made of normal. */
  ghost predicate Keyed(k: string, f: Fields) {
    && Field(f, "Package") != "" && k == KeyOf(f) && NamesPrintable(f)
    && NormalName(f, "Package") && NormalName(f, "Architecture")
  }

  ghost predicate Storable(db: Db) {
    forall k :: k in db ==> Keyed(k, db[k])
  }

  /** Every entry has a package name and printable field names. */
  ghost predicate Printable(db: Db) {
    forall k :: k in db ==> Field(db[k], "Package") != "" && NamesPrintable(db[k])
  }

  lemma StorableIsPrintable(db: Db)
    requires Storable(db)
    ensures Printable(db)
  {
    hide NormalName, KeyOf;
  }

  ghost predicate ValuesNormal(db: Db) {
    forall k :: k in db ==> NormalFields(db[k]) == db[k]
  }

  ghost predicate WellFormed(db: Db) {
    Storable(db) && ValuesNormal(db)
  }

  /** The database with every value as it reads back. */
  function NormalDb(db: Db): Db {
    map k | k in db :: NormalFields(db[k])
  }

  function NormalEntries(db: Db, order: seq<string>): (r: seq<Stanza>)
    ensures |r| == |order|
  {
    if order == [] then [] else NormalEntries(db, order[..|order| - 1]) + [NormalFields(Entry(db, order[|order| - 1]))]
  }

  lemma {:induction false} RunStatus(db: Db, order: seq<string>)
    requires Printable(db) && forall k :: k in order ==> k in db
    ensures Run(START, DropCRs(StatusLines(db, order))) == Parser(NormalEntries(db, order), map[], "", "")
  {
    if order != [] {
      hide Run, DropCRs, NormalFields, NamesPrintable, StanzaLines;
      var init, k := order[..|order| - 1], order[|order| - 1];
      RunStatus(db, init);
      assert k in order;
      EntryRoundTrip(NormalEntries(db, init), db[k]);
      DropCRsAppend(StatusLines(db, init), StanzaLines(db[k]));
      RunAppend(START, DropCRs(StatusLines(db, init)), DropCRs(StanzaLines(db[k])));
    } else {
      assert DropCRs(StatusLines(db, order)) == [];
    }
  }

  lemma NormalKeepsKey(k: string, f: Fields)
    requires Keyed(k, f)
    ensures KeyOf(NormalFields(f)) == k && Field(NormalFields(f), "Package") != ""
  {
    hide Normalise, KeyFor;
  }

  lemma AddLast(ss: seq<Stanza>, s: Stanza)
    requires Field(s, "Package") != ""
    ensures AddStanzas(map[], ss + [s]) == AddStanzas(map[], ss)[KeyOf(s) := s]
  {
    assert (ss + [s])[..|ss|] == ss;
    hide KeyOf;
  }

  lemma {:induction false} AddListedAt(db: Db, order: seq<string>, j: string)
    requires Storable(db) && forall k :: k in order ==> k in db
    ensures var r := AddStanzas(map[], NormalEntries(db, order));
      (j in r <==> j in order) && (j in order ==> r[j] == NormalFields(db[j]))
  {
    hide NormalFields, Keyed, KeyOf, Field, AddStanzas;
    if order != [] {
      var init, k := order[..|order| - 1], order[|order| - 1];
      AddListedAt(db, init, j);
      NormalKeepsKey(k, db[k]);
      AddLast(NormalEntries(db, init), NormalFields(db[k]));
      assert order == init + [k];
      assert NormalEntries(db, order) == NormalEntries(db, init) + [NormalFields(db[k])];
      hide NormalEntries;
    } else {
      assert NormalEntries(db, order) == [];
      NothingAdded();
    }
  }

  lemma NothingAdded()
    ensures AddStanzas(map[], []) == map[]
  {
  }

  lemma {:induction false} EntryLinesAreLines(f: Fields, order: seq<string>)
    requires NamesPrintable(f) && forall k :: k in order ==> k in f
    ensures forall l :: l in EntryLines(f, order) ==> l != "" && '\n' !in l
  {
    hide FieldLines, ValidName, DropCR;
    if order != [] {
      EntryLinesAreLines(f, order[..|order| - 1]);
      FieldLinesAreLines(order[|order| - 1], f[order[|order| - 1]]);
    }
  }

  /** No field of a printed entry is a blank line: only its end is. */
  lemma StanzaLinesAreLines(f: Fields)
    requires NamesPrintable(f)
    ensures forall i :: 0 <= i < |StanzaLines(f)| ==>
      '\n' !in StanzaLines(f)[i] && (StanzaLines(f)[i] == "" <==> i == |StanzaLines(f)| - 1)
  {
    hide ValidName, PrintOrder, EntryLines;
    PrintOrderLists(f);
    EntryLinesAreLines(f, PrintOrder(f));
    var lines := EntryLines(f, PrintOrder(f));
    assert forall i :: 0 <= i < |lines| ==> StanzaLines(f)[i] == lines[i] && lines[i] in lines;
  }

  lemma {:induction false} StatusLinesAreLines(db: Db, order: seq<string>)
    requires Printable(db) && forall k :: k in order ==> k in db
    ensures forall l :: l in StatusLines(db, order) ==> '\n' !in l
  {
    hide StanzaLines, NamesPrintable;
    if order != [] {
      var k := order[|order| - 1];
      StatusLinesAreLines(db, order[..|order| - 1]);
      assert k in order;
      StanzaLinesAreLines(db[k]);
    }
  }

  /** Reading printed entries is adding them, with normal values, in the order printed. */
  lemma PrintedIsAdded(db: Db, order: seq<string>)
    requires Printable(db) && forall k :: k in order ==> k in db
    ensures ReadStatus(Unlines(StatusLines(db, order))) == AddStanzas(map[], NormalEntries(db, order))
  {
    hide StatusLines, AddStanzas, NormalEntries, Unlines, ScanLines, DropCRs, Run, Printable;
    StatusLinesAreLines(db, order);
    ScanUnlines(StatusLines(db, order));
    RunStatus(db, order);
  }

  /** Whatever order the entries are written in, reading the file back gives the same
      entries under the same keys, with normal values. */
  lemma AnyOrderReadsBack(db: Db, order: seq<string>)
    requires Storable(db) && Lists(order, db.Keys)
    ensures ReadStatus(Unlines(StatusLines(db, order))) == NormalDb(db)
  {
    hide StatusLines, AddStanzas, NormalEntries, NormalFields, Unlines, Keyed, ReadStatus, Printable;
    StorableIsPrintable(db);
    PrintedIsAdded(db, order);
    forall j
      ensures j in AddStanzas(map[], NormalEntries(db, order)) <==> j in db
      ensures j in db ==> AddStanzas(map[], NormalEntries(db, order))[j] == NormalFields(db[j])
    {
      AddListedAt(db, order, j);
    }
  }

  lemma NormalDbExactly(db: Db)
    ensures NormalDb(db) == db <==> ValuesNormal(db)
  {
    hide NormalFields;
    if NormalDb(db) == db {
      forall k | k in db
        ensures NormalFields(db[k]) == db[k]
      {
        assert NormalDb(db)[k] == db[k];
      }
    }
    if ValuesNormal(db) {
      assert NormalDb(db) == db;
    }
  }

  /** A written database is read back unchanged exactly when its values are normal. */
  lemma StatusSurvivesExactly(db: Db)
    requires Storable(db)
    ensures ReadStatus(StatusText(db)) == db <==> ValuesNormal(db)
  {
    SortedLists(db.Keys);
    hide Sorted, StatusLines, ReadStatus, Keyed, NormalDb, ValuesNormal, Lists;
    AnyOrderReadsBack(db, Sorted(db.Keys));
    NormalDbExactly(db);
  }

  lemma StatusRoundTrip(db: Db)
    requires WellFormed(db)
    ensures ReadStatus(StatusText(db)) == db
  {
    StatusSurvivesExactly(db);
    hide *;
  }

  lemma ParseOfEntry(f: Fields)
    requires NamesPrintable(f) && "Package" in f
    ensures Parse(Unlines(StanzaLines(f))) == [NormalFields(f)]
  {
    EntryRoundTrip([], f);
    StanzaLinesAreLines(f);
    hide StanzaLines, NormalFields, Run, ScanLines, Unlines, DropCRs, NamesPrintable;
    ScanUnlines(StanzaLines(f));
    assert [] + [NormalFields(f)] == [NormalFields(f)];
  }

  lemma NormalFieldsExactly(f: Fields)
    ensures NormalFields(f) == f <==> forall k :: k in f ==> Normalise(f[k]) == f[k]
  {
    hide Normalise;
    var n := NormalFields(f);
    assert forall k :: k in f ==> k in n && n[k] == Normalise(f[k]);
    assert n == f <==> forall k :: k in f ==> n[k] == f[k];
  }

  /** One entry comes back unchanged exactly when all its values are normal. */
  lemma EntrySurvivesExactly(f: Fields)
    requires NamesPrintable(f) && "Package" in f
    ensures Parse(Unlines(StanzaLines(f))) == [f] <==> forall k :: k in f ==> Normalise(f[k]) == f[k]
  {
    ParseOfEntry(f);
    NormalFieldsExactly(f);
    hide *;
  }

  // ---- what is read needs only normal values --------------------------------------------

  ghost predicate KeysOk(db: Db) {
    forall k :: k in db ==> Field(db[k], "Package") != "" && k == KeyOf(db[k]) && NamesPrintable(db[k])
  }

  lemma {:induction false} AddStanzasKeys(ss: seq<Stanza>)
    requires forall s :: s in ss ==> NamesPrintable(s)
    ensures KeysOk(AddStanzas(map[], ss))
  {
    hide NamesPrintable, KeyOf;
    if ss != [] {
      AddStanzasKeys(ss[..|ss| - 1]);
      assert ss[|ss| - 1] in ss;
    }
  }

  /** Whatever the status file holds, what is read from it has matching keys and
      printable names; it is well formed as soon as its values are normal. */
  lemma ReadIsWellFormed(text: string)
    requires ValuesNormal(ReadStatus(text))
    ensures WellFormed(ReadStatus(text))
  {
    hide Parse, AddStanzas, ValidName, KeyOf, Normalise;
    ParsedNamesAreValid(text);
    AddStanzasKeys(Parse(text));
    var db := ReadStatus(text);
    forall k | k in db
      ensures NormalName(db[k], "Package") && NormalName(db[k], "Architecture")
    {
      NormalNames(db[k]);
    }
  }

  lemma NormalNames(f: Fields)
    requires NormalFields(f) == f && "Package" in f
    ensures NormalName(f, "Package") && NormalName(f, "Architecture")
  {
    EmptyIsNormal();
    hide Normalise;
    assert NormalFields(f)["Package"] == f["Package"];
    assert "Architecture" in f ==> NormalFields(f)["Architecture"] == f["Architecture"];
  }

  lemma EmptyIsNormal()
    ensures Normalise("") == ""
  {
    NormalExactly("");
    assert Split("", '\n') == [""] && Trim("") == "";
    hide Normalise;
  }

  // ---- an entry stored under another key than its own --------------------------------------

  /** Every entry but the one under name reads back under its own key; that one reads
      back under other. */
  ghost predicate OneMoves(db: Db, name: string, other: string) {
    && Printable(db) && name in db && name != other && KeyOf(NormalFields(db[name])) == other
    && forall k :: k in db && k != name ==> Keyed(k, db[k])
  }

  /** name is not printed after other. */
  ghost predicate NotAfter(order: seq<string>, name: string, other: string) {
    forall i, j :: 0 <= i < j < |order| ==> order[i] != other || order[j] != name
  }

  lemma {:induction false} AddMovedAt(db: Db, order: seq<string>, name: string, other: string, j: string)
    requires OneMoves(db, name, other) && NormalName(db[name], "Package")
    requires Distinct(order) && NotAfter(order, name, other) && forall k :: k in order ==> k in db
    ensures var r := AddStanzas(map[], NormalEntries(db, order));
      && (j in r <==> (j in order && j != name) || (j == other && name in order))
      && (j in r ==> r[j] == NormalFields(db[if j in order && j != name then j else name]))
  {
    hide NormalFields, Keyed, KeyOf, Field, AddStanzas, NormalName, NamesPrintable;
    if order != [] {
      var init, k := order[..|order| - 1], order[|order| - 1];
      AddMovedAt(db, init, name, other, j);
      assert k in order;
      if k == name {
        MovedKeepsPackage(db[name]);
        assert other !in init;
      } else {
        NormalKeepsKey(k, db[k]);
      }
      AddLast(NormalEntries(db, init), NormalFields(db[k]));
      assert order == init + [k];
      assert NormalEntries(db, order) == NormalEntries(db, init) + [NormalFields(db[k])];
      hide NormalEntries;
    } else {
      assert NormalEntries(db, order) == [];
      NothingAdded();
    }
  }

  lemma MovedKeepsPackage(f: Fields)
    requires Field(f, "Package") != "" && NormalName(f, "Package")
    ensures Field(NormalFields(f), "Package") != ""
  {
    hide Normalise;
  }

  lemma {:induction false} SortedAscends(keys: set<string>, i: nat, j: nat)
    requires i < j < |Sorted(keys)|
    ensures Compare(Sorted(keys)[i], Sorted(keys)[j]) <= 0
    decreases |Sorted(keys)|
  {
    var rest := keys - {Least(keys)};
    SortedLists(rest);
    hide Compare, Least;
    if i == 0 {
      assert Sorted(rest)[j - 1] in Sorted(rest);
    } else {
      SortedAscends(rest, i - 1, j - 1);
    }
  }

  /** A database in which one entry is stored under a key that sorts before its own: on
      reading it moves to its own key, unless an entry is there already, which wins. */
  lemma MovedReadsBack(db: Db, name: string, other: string)
    requires OneMoves(db, name, other) && NormalName(db[name], "Package") && Compare(name, other) < 0
    ensures ReadStatus(StatusText(db)) ==
      if other in db then NormalDb(db - {name}) else NormalDb(db - {name})[other := NormalFields(db[name])]
  {
    var order := Sorted(db.Keys);
    SortedLists(db.Keys);
    CompareSwap(name, other);
    hide StatusLines, AddStanzas, NormalEntries, NormalFields, Unlines, Keyed, ReadStatus, Compare, Sorted, Field, KeyOf, NormalName;
    forall i, j | 0 <= i < j < |order|
      ensures order[i] != other || order[j] != name
    {
      SortedAscends(db.Keys, i, j);
    }
    PrintedIsAdded(db, order);
    var r := AddStanzas(map[], NormalEntries(db, order));
    forall j
      ensures j in r <==> (j in db && j != name) || j == other
      ensures j in r ==> r[j] == NormalFields(db[if j in db && j != name then j else name])
    {
      AddMovedAt(db, order, name, other, j);
    }
  }

  // ---- a text whose database does not survive ------------------------------------------------

  /** A continuation line that is a dot after a tab is not the blank-line marker: its dot
      becomes part of the value, which does not survive the next rewrite. */
  lemma TabDotIsRead(name: string, text: string)
    requires name != "" && Normalise(name) == name && Normalise(text) == text
    ensures ReadStatus(Unlines(TabDotLines(name, text))) == map[name := map["Package" := name, "Description" := text + "\n."]]
    ensures Normalise(text + "\n.") != text + "\n."
  {
    hide Normalise, FieldLines, Unlines, ScanLines, Run, DropCRs, AddStanzas, TabDotLines;
    TabDotLinesAreLines(name, text);
    ScanUnlines(TabDotLines(name, text));
    RunTabDot(name, text);
    var s: Stanza := map["Package" := name, "Description" := text + "\n."];
    AddLast([], s);
    NothingAdded();
    assert [] + [s] == [s];
    DotIsNotNormal(text);
  }

  /** Two fields, and after the second one a tab and a dot. */
  function TabDotLines(name: string, text: string): seq<string> {
    FieldLines("Package", name) + FieldLines("Description", text) + ["\t.", ""]
  }

  lemma TabDotLinesAreLines(name: string, text: string)
    ensures forall l :: l in TabDotLines(name, text) ==> '\n' !in l
  {
    hide FieldLines;
    FieldLinesAreLines("Package", name);
    FieldLinesAreLines("Description", text);
    assert forall l :: l in ["\t.", ""] ==> l == "\t." || l == "";
  }

  lemma RunTabDot(name: string, text: string)
    requires Normalise(name) == name && Normalise(text) == text
    ensures Run(START, DropCRs(TabDotLines(name, text)))
         == Parser([map["Package" := name, "Description" := text + "\n."]], map[], "", "")
  {
    hide Normalise, FieldLines, Run, DropCRs;
    var first, second := FieldLines("Package", name), FieldLines("Description", text);
    DropCRsAppend(first + second, ["\t.", ""]);
    DropCRsAppend(first, second);
    RunAppend(START, DropCRs(first + second), DropCRs(["\t.", ""]));
    RunAppend(START, DropCRs(first), DropCRs(second));
    RunField(START, "Package", name);
    RunField(Parser([], map[], "Package", name), "Description", text);
    RunDotEnd(Parser([], map["Package" := name], "Description", text));
    var s: Stanza := map["Package" := name, "Description" := text + "\n."];
    assert map["Package" := name]["Description" := text + "\n."] == s;
    assert "Package" in s && [] + [s] == [s];
    assert first + second + ["\t.", ""] == TabDotLines(name, text);
    assert Flushed(Parser([], map[], "Package", name)) == map["Package" := name];
  }

  lemma RunDotEnd(p: Parser)
    requires p.field != ""
    ensures Run(p, DropCRs(["\t.", ""])) == Parser(Deliver(p.out, p.stanza[p.field := p.value + "\n."]), map[], "", "")
  {
    assert DropCRs(["\t.", ""]) == ["\t."] + [""];
    RunAppend(p, ["\t."], [""]);
    RunOne(p, "\t.");
    assert Continuation("\t.") == "\n.";
    RunOne(p.(value := p.value + "\n."), "");
  }

  lemma DotIsNotNormal(text: string)
    ensures Normalise(text + "\n.") != text + "\n."
  {
    SplitSnoc(text, '\n', ".");
    assert text + ['\n'] + "." == text + "\n.";
    NormalExactly(text + "\n.");
    hide Normalise, Split, Trim;
  }

  lemma Regroup<T>(a: seq<T>, b: seq<T>, c: seq<T>, d: seq<T>)
    ensures (a + b) + c + d == a + (b + c + d)
  {
  }

  lemma {:induction false} SplitSnoc(s: string, c: char, last: string)
    requires c !in last
    ensures Split(s + [c] + last, c) == Split(s, c) + [last]
    decreases |s|
  {
    var i := IndexOf(s, c);
    hide *;
    if i < 0 {
      SplitWhole(s, c);
      SplitWhole(last, c);
      SplitFirst(s, c, last);
    } else {
      var head, tail := s[..i], s[i + 1..];
      assert s == (head + [c]) + tail;
      SplitFirst(head, c, tail);
      SplitSnoc(tail, c, last);
      SplitFirst(head, c, tail + [c] + last);
      Regroup(head + [c], tail, [c], last);
      Regroup([head], Split(tail, c), [last], []);
    }
  }

  lemma SplitWhole(s: string, c: char)
    requires c !in s
    ensures Split(s, c) == [s]
  {
  }
}
