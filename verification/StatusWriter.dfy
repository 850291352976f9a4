/** Writing the dpkg status file: the printer loops and the atomic replacement. */
module StatusWriter {
  import opened Text
  import opened Deb822
  import opened DpkgStatus
  import opened FileSystem

  const STATUS: string := "/var/lib/dpkg/status"
  const TMP: string := STATUS + ".dpkg-tmp"

  // ---- the printer loops ------------------------------------------------------------

  lemma {:induction false} ContinuationSnoc(ls: seq<string>, i: nat)
    requires i < |ls|
    ensures ContinuationLines(ls[..i + 1]) == ContinuationLines(ls[..i]) + [ContinuationLine(ls[i])]
  {
    assert ls[..i + 1][..i] == ls[..i];
  }

  /** Either the file at TMP has grown by exactly these lines, or the write failed. */
  ghost predicate Wrote(ok: bool, before: string, files: Files, lines: seq<string>) {
    TMP in files && (ok ==> files[TMP].text == before + Unlines(lines))
  }

  lemma WroteMore(before: string, a: seq<string>, mid: string, b: seq<string>, after: string)
    requires mid == before + Unlines(a) && after == mid + Unlines(b)
    ensures after == before + Unlines(a + b)
  {
    UnlinesAppend(a, b);
    assert before + Unlines(a) + Unlines(b) == before + (Unlines(a) + Unlines(b));
  }

  method WriteLine(disk: Disk, line: string) returns (ok: bool)
    requires disk.Valid() && TMP in disk.files
    modifies disk
    ensures disk.Valid() && OnlyTouched(old(disk.states), disk.states, TMP)
    ensures Wrote(ok, old(disk.files[TMP].text), disk.files, [line])
  {
    UnlinesOne(line);
    ok := disk.Append(TMP, line + "\n");
  }

  lemma OneLineField(field: string, value: string)
    requires value == "" || '\n' !in value
    ensures FieldLines(field, value) == [if value == "" then field + ":" else field + ": " + value]
  {
    if value != "" {
      SplitWhole(value, '\n');
      hide Split;
      assert [value][1..] == [] && ContinuationLines([]) == [];
    }
  }

  /** The later lines of a value, after what has been written of it. */
  method WriteContinuations(disk: Disk, ghost before: string, ghost head: seq<string>, rest: seq<string>) returns (ok: bool)
    requires disk.Valid() && Wrote(true, before, disk.files, head)
    modifies disk
    ensures disk.Valid() && OnlyTouched(old(disk.states), disk.states, TMP)
    ensures Wrote(ok, before, disk.files, head + ContinuationLines(rest))
  {
    hide Unlines, ContinuationLines;
    NoContinuations(head, rest);
    OnlyTouchedSelf(disk.states, TMP);
    ok := true;
    var i := 0;
    while ok && i < |rest|
      invariant 0 <= i <= |rest| && disk.Valid() && OnlyTouched(old(disk.states), disk.states, TMP)
      invariant Wrote(ok, before, disk.files, head + ContinuationLines(rest[..i]))
    {
      ghost var states, mid := disk.states, disk.files[TMP].text;
      ok := WriteLine(disk, if rest[i] == "" then " ." else " " + rest[i]);
      OnlyTouchedTrans(old(disk.states), states, disk.states, TMP);
      ghost var done := head + ContinuationLines(rest[..i]);
      ContinuationSnoc(rest, i);
      assert done + [ContinuationLine(rest[i])] == head + ContinuationLines(rest[..i + 1]);
      if ok {
        WroteMore(before, done, mid, [ContinuationLine(rest[i])], disk.files[TMP].text);
      }
      i := i + 1;
    }
    assert rest[..|rest|] == rest;
  }

  lemma NoContinuations(head: seq<string>, rest: seq<string>)
    ensures head + ContinuationLines(rest[..0]) == head
  {
  }

  method WriteDeb822Field(disk: Disk, field: string, value: string) returns (ok: bool)
    requires disk.Valid() && TMP in disk.files
    modifies disk
    ensures disk.Valid() && OnlyTouched(old(disk.states), disk.states, TMP)
    ensures Wrote(ok, old(disk.files[TMP].text), disk.files, FieldLines(field, value))
  {
    hide Unlines, ContinuationLines, Split;
    ghost var before, states := disk.files[TMP].text, disk.states;
    if value == "" || '\n' !in value {
      OneLineField(field, value);
      hide FieldLines;
      ok := WriteLine(disk, if value == "" then field + ":" else field + ": " + value);
      return;
    }
    var lines := Split(value, '\n');
    ok := WriteLine(disk, field + ": " + lines[0]);
    if ok {
      ghost var mid := disk.states;
      ok := WriteContinuations(disk, before, [field + ": " + lines[0]], lines[1..]);
      OnlyTouchedTrans(states, mid, disk.states, TMP);
    }
  }

  lemma EntryLinesSnoc(f: Fields, order: seq<string>, k: string)
    ensures EntryLines(f, order + [k]) == EntryLines(f, order) + FieldLines(k, Field(f, k))
  {
    assert (order + [k])[..|order|] == order;
    hide FieldLines;
  }

  lemma PresentSnoc(i: nat, f: Fields)
    requires i < |FIELD_ORDER|
    ensures var k := FIELD_ORDER[i];
      Present(FIELD_ORDER[..i + 1], f)
      == (if k in f then Present(FIELD_ORDER[..i], f) + [k] else Present(FIELD_ORDER[..i], f))
  {
    var order := FIELD_ORDER[..i + 1];
    assert order[..|order| - 1] == FIELD_ORDER[..i] && order[|order| - 1] == FIELD_ORDER[i];
  }

  /** One more field after the ones already written. */
  method WriteNextField(disk: Disk, f: Fields, ghost before: string, ghost done: seq<string>, field: string)
    returns (ok: bool)
    requires disk.Valid() && field in f && Wrote(true, before, disk.files, EntryLines(f, done))
    modifies disk
    ensures disk.Valid() && OnlyTouched(old(disk.states), disk.states, TMP)
    ensures Wrote(ok, before, disk.files, EntryLines(f, done + [field]))
  {
    hide FieldLines, EntryLines, Unlines;
    ghost var mid := disk.files[TMP].text;
    ok := WriteDeb822Field(disk, field, f[field]);
    EntryLinesSnoc(f, done, field);
    if ok {
      WroteMore(before, EntryLines(f, done), mid, FieldLines(field, f[field]), disk.files[TMP].text);
    }
  }

  lemma TakeNext(done: seq<string>, order: seq<string>, i: nat)
    requires i < |order|
    ensures (done + order[..i]) + [order[i]] == done + order[..i + 1]
  {
  }

  method WriteExtra(disk: Disk, f: Fields, ghost before: string, ghost known: seq<string>, extra: seq<string>)
    returns (ok: bool)
    requires disk.Valid() && Wrote(true, before, disk.files, EntryLines(f, known))
    requires forall k :: k in extra ==> k in f
    modifies disk
    ensures disk.Valid() && OnlyTouched(old(disk.states), disk.states, TMP)
    ensures Wrote(ok, before, disk.files, EntryLines(f, known + extra))
  {
    ok := true;
    assert known + extra[..0] == known;
    OnlyTouchedSelf(disk.states, TMP);
    hide *;
    for i := 0 to |extra|
      invariant disk.Valid() && OnlyTouched(old(disk.states), disk.states, TMP)
      invariant ok && Wrote(true, before, disk.files, EntryLines(f, known + extra[..i]))
    {
      ghost var h := disk.states;
      ok := WriteNextField(disk, f, before, known + extra[..i], extra[i]);
      OnlyTouchedTrans(old(disk.states), h, disk.states, TMP);
      if !ok {
        return;
      }
      TakeNext(known, extra, i);
    }
    assert extra[..|extra|] == extra;
  }

  method WriteStatusEntry(disk: Disk, f: Fields) returns (ok: bool)
    requires disk.Valid() && TMP in disk.files
    modifies disk
    ensures disk.Valid() && OnlyTouched(old(disk.states), disk.states, TMP)
    ensures Wrote(ok, old(disk.files[TMP].text), disk.files, EntryLines(f, PrintOrder(f)))
  {
    ghost var start, h := disk.files[TMP].text, disk.states;
    var written: set<string> := {};
    ok := true;
    NothingPresent(f);
    OnlyTouchedSelf(h, TMP);
    assert Wrote(true, start, disk.files, []) by {
      assert start + Unlines([]) == start;
    }
    hide *;
    for i := 0 to |FIELD_ORDER|
      invariant disk.Valid() && OnlyTouched(h, disk.states, TMP)
      invariant ok && Wrote(true, start, disk.files, EntryLines(f, Present(FIELD_ORDER[..i], f)))
      invariant forall k :: k in written <==> k in Present(FIELD_ORDER[..i], f)
    {
      PresentSnoc(i, f);
      if FIELD_ORDER[i] in f {
        ghost var before := disk.states;
        ok := WriteNextField(disk, f, start, Present(FIELD_ORDER[..i], f), FIELD_ORDER[i]);
        OnlyTouchedTrans(h, before, disk.states, TMP);
        if !ok {
          return;
        }
        written := written + {FIELD_ORDER[i]};
      }
    }
    assert FIELD_ORDER[..|FIELD_ORDER|] == FIELD_ORDER;
    var extra := SortStrings(set k | k in f && k !in written);
    PrintOrderIs(f, written);
    ghost var before := disk.states;
    ok := WriteExtra(disk, f, start, Present(FIELD_ORDER, f), extra);
    OnlyTouchedTrans(h, before, disk.states, TMP);
  }

  lemma NothingPresent(f: Fields)
    ensures Present(FIELD_ORDER[..0], f) == [] && EntryLines(f, []) == []
  {
  }

  lemma PrintOrderIs(f: Fields, written: set<string>)
    requires forall k :: k in written <==> k in Present(FIELD_ORDER, f)
    ensures var rest := set k | k in f && k !in written;
      PrintOrder(f) == Present(FIELD_ORDER, f) + Sorted(rest) && forall k :: k in Sorted(rest) ==> k in f
  {
    hide Present, Sorted;
    var rest := set k | k in f && k !in written;
    assert rest == set k | k in f && k !in Present(FIELD_ORDER, f);
    SortedLists(rest);
  }

  lemma StatusLinesSnoc(db: Db, order: seq<string>, k: string)
    ensures StatusLines(db, order + [k]) == StatusLines(db, order) + StanzaLines(Entry(db, k))
  {
    assert (order + [k])[..|order|] == order;
    hide StanzaLines;
  }

  /** One more entry and its blank line after the ones already written. */
  method WriteNextEntry(disk: Disk, db: Db, ghost before: string, ghost done: seq<string>, k: string) returns (ok: bool)
    requires disk.Valid() && k in db && Wrote(true, before, disk.files, StatusLines(db, done))
    modifies disk
    ensures disk.Valid() && OnlyTouched(old(disk.states), disk.states, TMP)
    ensures Wrote(ok, before, disk.files, StatusLines(db, done + [k]))
  {
    hide StatusLines, EntryLines, PrintOrder, Unlines;
    ghost var start := disk.files[TMP].text;
    ok := WriteStatusEntry(disk, db[k]);
    if !ok {
      return;
    }
    ghost var mid, h := disk.files[TMP].text, disk.states;
    ok := WriteLine(disk, "");
    OnlyTouchedTrans(old(disk.states), h, disk.states, TMP);
    if ok {
      WroteMore(start, EntryLines(db[k], PrintOrder(db[k])), mid, [""], disk.files[TMP].text);
      StatusLinesSnoc(db, done, k);
      WroteMore(before, StatusLines(db, done), start, StanzaLines(db[k]), disk.files[TMP].text);
    }
  }

  method WriteAllStatusEntries(disk: Disk, db: Db) returns (ok: bool)
    requires disk.Valid() && TMP in disk.files && disk.files[TMP].text == ""
    modifies disk
    ensures disk.Valid() && OnlyTouched(old(disk.states), disk.states, TMP) && TMP in disk.files
    ensures ok ==> disk.files[TMP].text == StatusText(db)
  {
    var keys := SortStrings(db.Keys);
    SortedLists(db.Keys);
    ok := true;
    assert [] + keys[..0] == [];
    assert "" + Unlines(StatusLines(db, [])) == "";
    OnlyTouchedSelf(disk.states, TMP);
    hide *;
    for i := 0 to |keys|
      invariant disk.Valid() && OnlyTouched(old(disk.states), disk.states, TMP)
      invariant ok && Wrote(true, "", disk.files, StatusLines(db, [] + keys[..i]))
    {
      ghost var h := disk.states;
      ok := WriteNextEntry(disk, db, "", [] + keys[..i], keys[i]);
      OnlyTouchedTrans(old(disk.states), h, disk.states, TMP);
      if !ok {
        return;
      }
      TakeNext([], keys, i);
    }
    assert [] + keys[..|keys|] == keys;
    assert "" + Unlines(StatusLines(db, keys)) == StatusText(db);
  }

  // ---- replacing the status file --------------------------------------------------------

  ghost predicate Holds(s: Files, text: string) {
    STATUS in s && s[STATUS] == File(text, true)
  }

  /** Everything the disk went through since earlier: the status file is as it was, but
      for the last state, where it may be the new one. */
  ghost predicate OldThenNew(earlier: seq<Files>, later: seq<Files>, text: string) {
    Extends(earlier, later) &&
    forall i :: |earlier| <= i < |later| ==>
      KeepsFile(Last(earlier), later[i], STATUS) || (i == |later| - 1 && Holds(later[i], text))
  }

  lemma TmpIsNotStatus()
    ensures TMP != STATUS
  {
    assert |TMP| > |STATUS|;
  }

  lemma TmpOnly(earlier: seq<Files>, later: seq<Files>, text: string)
    requires OnlyTouched(earlier, later, TMP)
    ensures OldThenNew(earlier, later, text) && KeepsFile(Last(earlier), Last(later), STATUS)
  {
    TmpIsNotStatus();
    forall i | |earlier| <= i < |later|
      ensures KeepsFile(Last(earlier), later[i], STATUS)
    {
      assert later[i] - {TMP} == Last(earlier) - {TMP};
      assert STATUS in later[i] <==> STATUS in later[i] - {TMP};
      assert STATUS in Last(earlier) <==> STATUS in Last(earlier) - {TMP};
    }
    if |later| == |earlier| {
      assert later == earlier;
    }
  }

  /** writeDpkgStatus: the new text goes to the temporary file, is synced, and only
      then takes the place of the old one. */
  method WriteDpkgStatus(disk: Disk, db: Db) returns (ok: bool)
    requires disk.Valid()
    modifies disk
    ensures disk.Valid() && OldThenNew(old(disk.states), disk.states, StatusText(db))
    ensures if ok then Holds(disk.files, StatusText(db)) else KeepsFile(old(disk.files), disk.files, STATUS)
  {
    hide StatusText;
    TmpIsNotStatus();
    ghost var h0 := disk.states;
    ok := WriteTemporary(disk, db);
    TmpOnly(h0, disk.states, StatusText(db));
    if !ok {
      return;
    }
    ghost var h1 := disk.states;
    ok := disk.Rename(TMP, STATUS);
    if ok {
      assert Holds(disk.files, StatusText(db));
      assert disk.states[..|h0|] == h1[..|h0|];
    } else {
      disk.Remove(TMP);
      OnlyTouchedTrans(h0, h1, disk.states, TMP);
      TmpOnly(h0, disk.states, StatusText(db));
    }
  }

  /** Up to and including the close: on success the temporary file holds the whole text
      and is synced; on failure it is removed if possible. */
  method WriteTemporary(disk: Disk, db: Db) returns (ok: bool)
    requires disk.Valid()
    modifies disk
    ensures disk.Valid() && OnlyTouched(old(disk.states), disk.states, TMP)
    ensures ok ==> TMP in disk.files && disk.files[TMP] == File(StatusText(db), true)
  {
    hide StatusText;
    ghost var h0 := disk.states;
    ok := disk.OpenTruncate(TMP);
    if !ok {
      return;
    }
    ghost var h1 := disk.states;
    ok := WriteAllStatusEntries(disk, db);
    OnlyTouchedTrans(h0, h1, disk.states, TMP);
    ghost var h2 := disk.states;
    if ok {
      ok := disk.Sync(TMP);
      OnlyTouchedTrans(h0, h2, disk.states, TMP);
    }
    var closed := disk.Close(TMP);
    if !ok || !closed {
      ghost var h3 := disk.states;
      disk.Remove(TMP);
      OnlyTouchedTrans(h0, h3, disk.states, TMP);
      ok := false;
    }
  }
}
