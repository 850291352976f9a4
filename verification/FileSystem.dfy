/** The file operations the status writer uses, over a disk that remembers every
    state it has been in: a crash may strike in any of them. Each operation may fail. */
module FileSystem {

  /** durable: the text has been synced, so it survives a crash. */
  datatype File = File(text: string, durable: bool)

  type Files = map<string, File>

  /** What a crash in state s may leave: synced files as they were, absent files
      absent, everything else with any text or gone. */
  ghost predicate Recovers(s: Files, after: Files) {
    && (forall p :: p in after ==> p in s)
    && (forall p :: p in s && s[p].durable ==> p in after && after[p].text == s[p].text)
  }

  ghost function Last(h: seq<Files>): Files
    requires h != []
  {
    h[|h| - 1]
  }

  ghost predicate Extends(earlier: seq<Files>, later: seq<Files>) {
    earlier != [] && |earlier| <= |later| && later[..|earlier|] == earlier
  }

  /** later goes on from earlier through states that differ only at path. */
  ghost predicate OnlyTouched(earlier: seq<Files>, later: seq<Files>, path: string) {
    Extends(earlier, later) &&
    forall i :: |earlier| <= i < |later| ==> later[i] - {path} == Last(earlier) - {path}
  }

  lemma OnlyTouchedSelf(h: seq<Files>, path: string)
    requires h != []
    ensures OnlyTouched(h, h, path)
  {
  }

  lemma OnlyTouchedTrans(a: seq<Files>, b: seq<Files>, c: seq<Files>, path: string)
    requires OnlyTouched(a, b, path) && OnlyTouched(b, c, path)
    ensures OnlyTouched(a, c, path)
  {
    assert c[..|a|] == b[..|a|];
    forall i | |a| <= i < |c|
      ensures c[i] - {path} == Last(a) - {path}
    {
      if i < |b| {
        assert c[i] == c[..|b|][i];
      }
    }
  }

  class Disk {
    var files: Files
    ghost var states: seq<Files>

    ghost predicate Valid()
      reads this
    {
      states != [] && Last(states) == files
    }

    constructor (files: Files)
      ensures Valid() && this.files == files && states == [files]
    {
      this.files := files;
      states := [files];
    }

    method Put(path: string, f: File)
      requires Valid()
      modifies this
      ensures Valid() && files == old(files)[path := f] && states == old(states) + [files]
      ensures OnlyTouched(old(states), states, path)
    {
      files := files[path := f];
      states := states + [files];
      assert files - {path} == old(files) - {path};
    }

    method OpenTruncate(path: string) returns (ok: bool)
      requires Valid()
      modifies this
      ensures Valid() && OnlyTouched(old(states), states, path)
      ensures ok ==> path in files && files[path].text == ""
    {
      ok := *;
      if ok {
        Put(path, File("", false));
      }
    }

    /** A write in several pieces, any number of which may reach the file. */
    method Append(path: string, more: string) returns (ok: bool)
      requires Valid() && path in files
      modifies this
      ensures Valid() && OnlyTouched(old(states), states, path) && path in files
      ensures ok ==> files[path].text == old(files[path].text) + more
    {
      var text := files[path].text;
      var n := 0;
      ok := *;
      while n < |more| && ok
        invariant Valid() && OnlyTouched(old(states), states, path) && path in files
        invariant 0 <= n <= |more| && files[path].text == text + more[..n]
        decreases |more| - n + (if ok then 1 else 0)
      {
        var k: nat :| n < k <= |more|;
        ghost var before := states;
        Put(path, File(text + more[..k], false));
        OnlyTouchedTrans(old(states), before, states, path);
        n := k;
        ok := *;
      }
    }

    method Sync(path: string) returns (ok: bool)
      requires Valid() && path in files
      modifies this
      ensures Valid() && OnlyTouched(old(states), states, path) && path in files
      ensures files[path].text == old(files[path].text) && (ok ==> files[path].durable)
    {
      ok := *;
      if ok {
        Put(path, File(files[path].text, true));
      }
    }

    method Close(path: string) returns (ok: bool)
      requires Valid() && path in files
      ensures Valid()
    {
      ok := *;
    }

    method Remove(path: string)
      requires Valid()
      modifies this
      ensures Valid() && OnlyTouched(old(states), states, path)
    {
      var ok: bool := *;
      if ok {
        files := files - {path};
        states := states + [files];
        assert files - {path} == old(files) - {path};
      }
    }

    /** Atomic: no state in between. */
    method Rename(from: string, to: string) returns (ok: bool)
      requires Valid() && from in files && from != to
      modifies this
      ensures Valid()
      ensures ok ==> files == old(files)[to := old(files[from])] - {from} && states == old(states) + [files]
      ensures !ok ==> files == old(files) && states == old(states)
    {
      ok := *;
      if ok {
        files := files[to := files[from]] - {from};
        states := states + [files];
      }
    }

    /** Scripts and unpacking: anything may happen to any file but the kept one. */
    method ChangeOthers(kept: string)
      requires Valid()
      modifies this
      ensures Valid() && Extends(old(states), states)
      ensures forall i :: |old(states)| <= i < |states| ==> KeepsFile(old(files), states[i], kept)
    {
      var changes :| changes >= 0;
      for i := 0 to changes
        invariant Valid() && Extends(old(states), states) && KeepsFile(old(files), files, kept)
        invariant forall j :: |old(states)| <= j < |states| ==> KeepsFile(old(files), states[j], kept)
      {
        var others: Files := *;
        files := if kept in files then others[kept := files[kept]] else others - {kept};
        states := states + [files];
      }
    }
  }

  ghost predicate KeepsFile(before: Files, after: Files, path: string) {
    (path in before <==> path in after) && (path in before ==> before[path] == after[path])
  }
}
