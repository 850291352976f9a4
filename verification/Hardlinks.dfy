/** Extracting the regular files of an RPM payload. Any entry of a group of hard links
    may carry the data; the tracker links the others to it, whatever the order. */
module Hardlinks {
  import opened Text

  /** A device and inode number packed into one word. */
  datatype Key = Key(word: bv64)

  const LOW: bv64 := 0xFFFF_FFFF

  /** Both numbers are cut to 32 bits first. */
  function InodeKey(device: bv64, inode: bv64): Key {
    Key(((device & LOW) << 32) | (inode & LOW))
  }

  lemma InodeKeyInjective(d1: bv64, i1: bv64, d2: bv64, i2: bv64)
    requires InodeKey(d1, i1) == InodeKey(d2, i2)
    ensures d1 & LOW == d2 & LOW && i1 & LOW == i2 & LOW
  {
  }

  datatype Entry =
    | Data(path: string, key: Key, text: string)
    | HardLink(path: string, key: Key)

  /** Paths name inodes, inodes hold text; the tracker knows where each group's data is
      and which links wait for it. failed: a link had nothing to link to. */
  datatype State = State(paths: map<string, nat>, texts: map<nat, string>, next: nat,
                         data: map<Key, string>, waiting: map<Key, seq<string>>, failed: bool)

  function Tmp(path: string): (r: string)
    ensures r != path
  {
    assert |path + ".rpm-new"| > |path|;
    path + ".rpm-new"
  }

  // ---- one entry ---------------------------------------------------------------------

  /** Create or truncate the temporary file, fill it, and rename it over the target. */
  function WriteFile(s: State, path: string, text: string): State {
    var tmp := Tmp(path);
    var inode := if tmp in s.paths then s.paths[tmp] else s.next;
    s.(texts := s.texts[inode := text],
       next := if tmp in s.paths then s.next else s.next + 1,
       paths := (s.paths - {tmp})[path := inode])
  }

  function Link(s: State, source: string, target: string): State {
    if s.failed || source == target then s
    else if source !in s.paths then s.(failed := true)
    else s.(paths := s.paths[target := s.paths[source]])
  }

  function LinkAll(s: State, source: string, targets: seq<string>): State {
    if targets == [] then s
    else Link(LinkAll(s, source, targets[..|targets| - 1]), source, targets[|targets| - 1])
  }

  function Waiting(s: State, key: Key): seq<string> {
    if key in s.waiting then s.waiting[key] else []
  }

  function Step(s: State, e: Entry): State {
    if s.failed then s
    else match e
      case HardLink(path, key) =>
        if key in s.data then Link(s, s.data[key], path)
        else s.(waiting := s.waiting[key := Waiting(s, key) + [path]])
      case Data(path, key, text) =>
        var w := WriteFile(s, path, text);
        LinkAll(w.(data := w.data[key := path]), path, Waiting(s, key))
  }

  function Run(s: State, es: seq<Entry>): State {
    if es == [] then s else Step(Run(s, es[..|es| - 1]), es[|es| - 1])
  }

  // ---- what a payload is, and what should come of it ------------------------------------

  ghost predicate DistinctPaths(es: seq<Entry>) {
    forall i, j :: 0 <= i < j < |es| ==> es[i].path != es[j].path
  }

  /** Paths are distinct, and every inode key has exactly one entry with data. */
  ghost predicate IsPayload(es: seq<Entry>) {
    && DistinctPaths(es)
    && (forall i, j :: 0 <= i < j < |es| && es[i].Data? && es[j].Data? ==> es[i].key != es[j].key)
    && (forall j :: 0 <= j < |es| ==> HasData(es, es[j].key, |es|))
  }

  /** Nothing extracted yet; the disk may hold anything. */
  ghost predicate IsStart(s: State) {
    && !s.failed && s.data == map[] && s.waiting == map[]
    && (forall p :: p in s.paths ==> s.paths[p] < s.next)
  }

  /** The disk already holds the temporary names of both files, as links to one inode. */
  ghost predicate SharesTmp(s: State, e: Entry, f: Entry) {
    && e.Data? && f.Data? && e.path != f.path && Tmp(e.path) in s.paths && Tmp(f.path) in s.paths
    && s.paths[Tmp(e.path)] == s.paths[Tmp(f.path)]
  }

  ghost predicate SharedTmps(s: State, es: seq<Entry>) {
    exists e, f :: e in es && f in es && SharesTmp(s, e, f)
  }

  /** Every path of every group names the inode that holds the group's data, and
      different groups have different inodes. */
  ghost predicate AllLinked(s: State, es: seq<Entry>) {
    && !s.failed
    && (forall j, d :: 0 <= j < |es| && 0 <= d < |es| && es[d].Data? && es[d].key == es[j].key ==> Linked(s, es[j], es[d]))
    && (forall i, j :: 0 <= i < |es| && 0 <= j < |es| && es[i].key != es[j].key ==> Apart(s, es[i], es[j]))
  }

  ghost predicate Linked(s: State, e: Entry, d: Entry)
    requires d.Data?
  {
    && e.path in s.paths && d.path in s.paths && s.paths[e.path] == s.paths[d.path]
    && s.paths[d.path] in s.texts && s.texts[s.paths[d.path]] == d.text
  }

  ghost predicate Apart(s: State, e: Entry, f: Entry) {
    e.path in s.paths && f.path in s.paths && s.paths[e.path] != s.paths[f.path]
  }

  /** Entry j has been put in place by the first n entries: it and its group's data are
      among them. */
  ghost predicate Placed(es: seq<Entry>, j: nat, n: nat)
    requires n <= |es|
  {
    j < n && HasData(es, es[j].key, n)
  }

  ghost predicate HasData(es: seq<Entry>, k: Key, n: nat)
    requires n <= |es|
  {
    exists d :: 0 <= d < n && es[d].Data? && es[d].key == k
  }

  /** A path already put in place is the temporary name of a file still to be written. */
  ghost predicate Collides(es: seq<Entry>) {
    exists j, i :: 0 <= j < i < |es| && es[i].Data? && es[j].path == Tmp(es[i].path) && Placed(es, j, i)
  }

  // ---- links -------------------------------------------------------------------------------

  lemma {:induction false} LinkAllKeepsRest(s: State, source: string, targets: seq<string>)
    requires !s.failed && source in s.paths
    ensures var r := LinkAll(s, source, targets);
      && r == s.(paths := r.paths) && source in r.paths && r.paths[source] == s.paths[source]
  {
    if targets != [] {
      LinkAllKeepsRest(s, source, targets[..|targets| - 1]);
    }
  }

  /** Exactly the targets now name the source's inode. */
  lemma {:induction false} LinkAllAt(s: State, source: string, targets: seq<string>, p: string)
    requires !s.failed && source in s.paths
    ensures var r := LinkAll(s, source, targets);
      && (p in r.paths <==> p in s.paths || p in targets)
      && (p in r.paths ==> r.paths[p] == if p in targets then s.paths[source] else s.paths[p])
  {
    if targets != [] {
      var init, last := targets[..|targets| - 1], targets[|targets| - 1];
      LinkAllAt(s, source, init, p);
      LinkAllKeepsRest(s, source, init);
      assert p in targets <==> p in init || p == last;
    }
  }

  // ---- without a collision, every prefix is in order ------------------------------------------

  ghost predicate TracksData(s: State, es: seq<Entry>, n: nat)
    requires n <= |es|
  {
    && (forall k :: k in s.data ==> HasData(es, k, n))
    && (forall d :: 0 <= d < n && es[d].Data? ==> es[d].key in s.data && s.data[es[d].key] == es[d].path)
  }

  ghost predicate TracksWaiting(s: State, es: seq<Entry>, n: nat)
    requires n <= |es|
  {
    && (forall k, p :: p in Waiting(s, k) ==> exists j :: 0 <= j < n && es[j] == HardLink(p, k))
    && (forall j :: 0 <= j < n && es[j].HardLink? && !HasData(es, es[j].key, n) ==> es[j].path in Waiting(s, es[j].key))
  }

  ghost predicate InPlace(s: State, es: seq<Entry>, n: nat)
    requires n <= |es|
  {
    && (forall j, d :: 0 <= j < n && 0 <= d < n && es[d].Data? && es[d].key == es[j].key ==> Linked(s, es[j], es[d]))
    && (forall c, d :: 0 <= c < d < n && es[c].Data? && es[d].Data? ==> Apart(s, es[c], es[d]))
  }

  /** Temporary names still to be used are as the disk had them at the start. */
  ghost predicate TmpsAsBefore(s0: State, s: State, es: seq<Entry>, n: nat) {
    && s0.next <= s.next
    && (forall p :: p in s.paths ==> s.paths[p] < s.next)
    && (forall i :: n <= i < |es| && es[i].Data? ==> SameName(s0, s, Tmp(es[i].path)))
  }

  ghost predicate SameName(s0: State, s: State, p: string) {
    (p in s.paths <==> p in s0.paths) && (p in s.paths ==> s.paths[p] == s0.paths[p])
  }

  /** A file written has the inode its temporary name had at the start, or a new one. */
  ghost predicate HomesKept(s0: State, s: State, es: seq<Entry>, n: nat)
    requires n <= |es|
  {
    forall c :: 0 <= c < n && es[c].Data? ==> AtHome(s0, s, es[c].path)
  }

  ghost predicate AtHome(s0: State, s: State, path: string) {
    path in s.paths && if Tmp(path) in s0.paths then s.paths[path] == s0.paths[Tmp(path)] else s.paths[path] >= s0.next
  }

  ghost predicate Inv(s0: State, s: State, es: seq<Entry>, n: nat)
    requires n <= |es|
  {
    !s.failed && TracksData(s, es, n) && TracksWaiting(s, es, n) && TmpsAsBefore(s0, s, es, n) && HomesKept(s0, s, es, n)
  }

  lemma HasDataNext(es: seq<Entry>, k: Key, n: nat)
    requires n < |es|
    ensures HasData(es, k, n + 1) <==> HasData(es, k, n) || (es[n].Data? && es[n].key == k)
  {
  }

  // -- a link whose data has not come yet

  lemma LinkWaits(s: State, es: seq<Entry>, n: nat)
    requires n < |es| && TracksData(s, es, n) && TracksWaiting(s, es, n)
    requires es[n].HardLink? && es[n].key !in s.data && !s.failed
    ensures TracksWaiting(Step(s, es[n]), es, n + 1)
  {
    var r, e := Step(s, es[n]), es[n];
    hide HasData, TracksData;
    assert Waiting(r, e.key) == Waiting(s, e.key) + [e.path];
    assert forall k :: k != e.key ==> Waiting(r, k) == Waiting(s, k);
    forall k
      ensures HasData(es, k, n + 1) <==> HasData(es, k, n)
    {
      HasDataNext(es, k, n);
    }
    hide Step, Waiting;
    forall k, p | p in Waiting(r, k)
      ensures exists j :: 0 <= j < n + 1 && es[j] == HardLink(p, k)
    {
      if p in Waiting(s, k) {
        var j :| 0 <= j < n && es[j] == HardLink(p, k);
      } else {
        assert es[n] == HardLink(p, k);
      }
    }
  }

  /** The path still names the same inode, with the same text. */
  ghost predicate SameAt(s: State, r: State, path: string) {
    && path in s.paths && path in r.paths && r.paths[path] == s.paths[path]
    && (s.paths[path] in s.texts ==> s.paths[path] in r.texts && r.texts[s.paths[path]] == s.texts[s.paths[path]])
  }

  lemma PlaceKept(s: State, r: State, es: seq<Entry>, n: nat)
    requires n <= |es| && InPlace(s, es, n)
    requires forall j :: 0 <= j < n && HasData(es, es[j].key, n) ==> SameAt(s, r, es[j].path)
    ensures InPlace(r, es, n)
  {
    forall j, d | 0 <= j < n && 0 <= d < n && es[d].Data? && es[d].key == es[j].key
      ensures Linked(r, es[j], es[d])
    {
      assert HasData(es, es[j].key, n) && Linked(s, es[j], es[d]);
    }
    forall c, d | 0 <= c < d < n && es[c].Data? && es[d].Data?
      ensures Apart(r, es[c], es[d])
    {
      assert HasData(es, es[c].key, n) && HasData(es, es[d].key, n) && Apart(s, es[c], es[d]);
    }
  }

  /** Entry n joins the others: it is linked to the data of its group, if that is there. */
  lemma PlaceJoined(s: State, es: seq<Entry>, n: nat)
    requires n < |es| && InPlace(s, es, n) && es[n].HardLink?
    requires forall d :: 0 <= d < n && es[d].Data? && es[d].key == es[n].key ==> Linked(s, es[n], es[d])
    ensures InPlace(s, es, n + 1)
  {
    hide Linked, Apart;
  }

  lemma PlacedExist(s: State, es: seq<Entry>, n: nat, j: nat)
    requires j < n <= |es| && InPlace(s, es, n) && HasData(es, es[j].key, n)
    ensures es[j].path in s.paths && SameAt(s, s, es[j].path)
  {
    var d :| 0 <= d < n && es[d].Data? && es[d].key == es[j].key;
    assert Linked(s, es[j], es[d]);
  }

  lemma WaitingKeepsPlace(s: State, es: seq<Entry>, n: nat)
    requires n < |es| && TracksData(s, es, n) && InPlace(s, es, n)
    requires es[n].HardLink? && es[n].key !in s.data && !s.failed
    ensures InPlace(Step(s, es[n]), es, n + 1)
  {
    var r := Step(s, es[n]);
    assert r == s.(waiting := r.waiting);
    assert forall d :: 0 <= d < n && es[d].Data? ==> es[d].key != es[n].key;
    hide Step, InPlace, Tmp, HasData, Linked, Apart, TracksData;
    forall j | 0 <= j < n && HasData(es, es[j].key, n)
      ensures SameAt(s, r, es[j].path)
    {
      PlacedExist(s, es, n, j);
    }
    PlaceKept(s, r, es, n);
    PlaceJoined(r, es, n);
  }

  lemma WaitingChangesNothing(s0: State, s: State, es: seq<Entry>, n: nat)
    requires n < |es| && TracksData(s, es, n) && TmpsAsBefore(s0, s, es, n) && HomesKept(s0, s, es, n)
    requires es[n].HardLink? && es[n].key !in s.data && !s.failed
    ensures var r := Step(s, es[n]);
      !r.failed && TracksData(r, es, n + 1) && TmpsAsBefore(s0, r, es, n + 1) && HomesKept(s0, r, es, n + 1)
  {
    hide Tmp;
  }

  lemma StepLinkWaits(s0: State, s: State, es: seq<Entry>, n: nat)
    requires n < |es| && Inv(s0, s, es, n) && es[n].HardLink? && es[n].key !in s.data
    ensures Inv(s0, Step(s, es[n]), es, n + 1) && (InPlace(s, es, n) ==> InPlace(Step(s, es[n]), es, n + 1))
  {
    LinkWaits(s, es, n);
    if InPlace(s, es, n) {
      WaitingKeepsPlace(s, es, n);
    }
    WaitingChangesNothing(s0, s, es, n);
    hide Step, TracksData, TracksWaiting, InPlace, TmpsAsBefore, HomesKept;
  }

  // -- a link whose data is there

  lemma LinkedNow(s: State, es: seq<Entry>, n: nat, c: nat)
    requires n < |es| && DistinctPaths(es) && TracksData(s, es, n) && !s.failed
    requires c < n && es[c].Data? && es[c].key == es[n].key && es[n].HardLink? && es[c].path in s.paths
    ensures var r := Step(s, es[n]);
      s.data[es[n].key] == es[c].path && r == s.(paths := s.paths[es[n].path := s.paths[es[c].path]])
    ensures Linked(s, es[c], es[c]) ==> Linked(Step(s, es[n]), es[n], es[c])
  {
    hide HasData;
    assert es[n].path != es[c].path;
  }

  lemma LinkKeepsPlace(s: State, es: seq<Entry>, n: nat, c: nat)
    requires n < |es| && IsPayload(es) && TracksData(s, es, n) && InPlace(s, es, n) && !s.failed
    requires c < n && es[c].Data? && es[c].key == es[n].key && es[n].HardLink?
    ensures InPlace(Step(s, es[n]), es, n + 1)
  {
    assert Linked(s, es[c], es[c]);
    LinkedNow(s, es, n, c);
    var r := Step(s, es[n]);
    assert forall d :: 0 <= d < n && es[d].Data? && es[d].key == es[n].key ==> d == c;
    hide Step, InPlace, Tmp, HasData, Linked, Apart, TracksData;
    forall j | 0 <= j < n && HasData(es, es[j].key, n)
      ensures SameAt(s, r, es[j].path)
    {
      PlacedExist(s, es, n, j);
      assert es[j].path != es[n].path;
    }
    PlaceKept(s, r, es, n);
    PlaceJoined(r, es, n);
  }

  lemma LinkKeepsTracks(s: State, es: seq<Entry>, n: nat, c: nat)
    requires n < |es| && TracksData(s, es, n) && TracksWaiting(s, es, n)
    requires c < n && es[c].Data? && es[c].key == es[n].key && es[n].HardLink?
    requires var r := Step(s, es[n]); r == s.(paths := r.paths)
    ensures TracksData(Step(s, es[n]), es, n + 1) && TracksWaiting(Step(s, es[n]), es, n + 1)
  {
    var r := Step(s, es[n]);
    assert forall k :: Waiting(r, k) == Waiting(s, k);
    assert HasData(es, es[n].key, n);
    forall k
      ensures HasData(es, k, n + 1) <==> HasData(es, k, n)
    {
      HasDataNext(es, k, n);
    }
    hide Step, HasData;
  }

  lemma LinkKeepsTmps(s0: State, s: State, es: seq<Entry>, n: nat, c: nat)
    requires n < |es| && TmpsAsBefore(s0, s, es, n) && !Collides(es)
    requires c < n && es[c].Data? && es[c].key == es[n].key && es[n].HardLink?
    requires es[c].path in s.paths && Step(s, es[n]) == s.(paths := s.paths[es[n].path := s.paths[es[c].path]])
    ensures TmpsAsBefore(s0, Step(s, es[n]), es, n + 1)
  {
    hide Step, Tmp;
    forall i | n + 1 <= i < |es| && es[i].Data?
      ensures Tmp(es[i].path) != es[n].path
    {
      assert HasData(es, es[n].key, i);
      assert Placed(es, n, i);
    }
  }

  lemma LinkKeepsHomes(s0: State, s: State, es: seq<Entry>, n: nat, inode: nat)
    requires n < |es| && DistinctPaths(es) && HomesKept(s0, s, es, n) && es[n].HardLink?
    ensures HomesKept(s0, s.(paths := s.paths[es[n].path := inode]), es, n + 1)
  {
    hide Tmp;
  }

  lemma StepLink(s0: State, s: State, es: seq<Entry>, n: nat)
    requires n < |es| && IsPayload(es) && !Collides(es) && Inv(s0, s, es, n) && es[n].HardLink? && es[n].key in s.data
    ensures Inv(s0, Step(s, es[n]), es, n + 1) && (InPlace(s, es, n) ==> InPlace(Step(s, es[n]), es, n + 1))
  {
    assert HasData(es, es[n].key, n);
    var c :| 0 <= c < n && es[c].Data? && es[c].key == es[n].key;
    assert AtHome(s0, s, es[c].path);
    LinkedNow(s, es, n, c);
    if InPlace(s, es, n) {
      LinkKeepsPlace(s, es, n, c);
    }
    LinkKeepsTracks(s, es, n, c);
    LinkKeepsTmps(s0, s, es, n, c);
    LinkKeepsHomes(s0, s, es, n, s.paths[es[c].path]);
    hide Step, TracksData, TracksWaiting, InPlace, TmpsAsBefore, HomesKept, HasData, DistinctPaths, Collides;
  }

  // -- the data of a group

  /** The inode a data entry writes to. */
  function Inode(s: State, e: Entry): nat
    requires e.Data?
  {
    if Tmp(e.path) in s.paths then s.paths[Tmp(e.path)] else s.next
  }

  /** What a data entry does, seen at one path. */
  lemma DataStepAt(s: State, e: Entry, p: string)
    requires !s.failed && e.Data?
    ensures var r, moved := Step(s, e), p == e.path || p in Waiting(s, e.key);
      && (p in r.paths <==> moved || (p in s.paths && p != Tmp(e.path)))
      && (p in r.paths ==> r.paths[p] == if moved then Inode(s, e) else s.paths[p])
  {
    hide Tmp, Waiting;
    var w := DataWritten(s, e);
    LinkAllAt(w, e.path, Waiting(s, e.key), p);
    hide LinkAll;
  }

  function DataWritten(s: State, e: Entry): (w: State)
    requires e.Data?
    ensures w.paths == (s.paths - {Tmp(e.path)})[e.path := Inode(s, e)] && w.failed == s.failed
  {
    var w := WriteFile(s, e.path, e.text);
    w.(data := w.data[e.key := e.path])
  }

  lemma DataStepRest(s: State, e: Entry)
    requires !s.failed && e.Data?
    ensures var r := Step(s, e);
      && r == s.(paths := r.paths, texts := s.texts[Inode(s, e) := e.text], next := r.next, data := s.data[e.key := e.path])
      && r.next == if Tmp(e.path) in s.paths then s.next else s.next + 1
  {
    hide Tmp, Waiting;
    LinkAllKeepsRest(DataWritten(s, e), e.path, Waiting(s, e.key));
    hide LinkAll;
  }

  /** No file written so far has the inode the next one is written to. */
  lemma InodeIsNew(s0: State, s: State, es: seq<Entry>, n: nat, c: nat)
    requires c < n < |es| && IsPayload(es) && IsStart(s0) && Inv(s0, s, es, n) && es[c].Data? && es[n].Data?
    requires !SharedTmps(s0, es)
    ensures es[c].path in s.paths && s.paths[es[c].path] != Inode(s, es[n])
  {
    assert AtHome(s0, s, es[c].path) && SameName(s0, s, Tmp(es[n].path));
    assert !SharesTmp(s0, es[c], es[n]);
    hide Tmp, TracksData, TracksWaiting, HasData;
  }

  lemma OnlyItsOwnWait(s: State, es: seq<Entry>, n: nat, j: nat)
    requires j < n < |es| && IsPayload(es) && TracksWaiting(s, es, n) && es[n].Data?
    ensures es[j].path in Waiting(s, es[n].key) <==> es[j].key == es[n].key
    ensures es[j].path != es[n].path
  {
    assert HasData(es, es[n].key, n) ==> false;
    if es[j].path in Waiting(s, es[n].key) {
      var i :| 0 <= i < n && es[i] == HardLink(es[j].path, es[n].key);
      assert i == j;
    }
  }

  lemma NoEarlierData(es: seq<Entry>, n: nat)
    requires n < |es| && IsPayload(es) && es[n].Data?
    ensures !HasData(es, es[n].key, n)
  {
  }

  lemma NotTmpOfLater(es: seq<Entry>, j: nat, i: nat)
    requires !Collides(es) && j < i < |es| && es[i].Data? && HasData(es, es[j].key, i)
    ensures es[j].path != Tmp(es[i].path)
  {
    assert Placed(es, j, i);
    hide Tmp, HasData;
  }

  /** Neither a collision nor shared temporary names. */
  ghost predicate Orderly(s0: State, es: seq<Entry>) {
    IsPayload(es) && IsStart(s0) && !Collides(es) && !SharedTmps(s0, es)
  }

  /** The paths in place when the data of entry n comes are not touched by it. */
  lemma PlacedNotMoved(s0: State, s: State, es: seq<Entry>, n: nat, j: nat)
    requires j < n < |es| && IsPayload(es) && !Collides(es) && Inv(s0, s, es, n) && es[n].Data?
    requires HasData(es, es[j].key, n) && es[j].path in s.paths
    ensures var r := Step(s, es[n]); es[j].path in r.paths && r.paths[es[j].path] == s.paths[es[j].path]
  {
    NoEarlierData(es, n);
    OnlyItsOwnWait(s, es, n, j);
    NotTmpOfLater(es, j, n);
    DataStepAt(s, es[n], es[j].path);
    hide Step, Tmp, HasData, TracksData, IsPayload, Waiting, Inode;
  }

  lemma PlacedSame(s0: State, s: State, es: seq<Entry>, n: nat, j: nat)
    requires j < n < |es| && Orderly(s0, es) && Inv(s0, s, es, n) && InPlace(s, es, n) && es[n].Data?
    requires HasData(es, es[j].key, n)
    ensures SameAt(s, Step(s, es[n]), es[j].path)
  {
    var d :| 0 <= d < n && es[d].Data? && es[d].key == es[j].key;
    assert Linked(s, es[j], es[d]);
    NotFailed(s0, s, es, n);
    hide InPlace, Inv, IsPayload, Collides, SharedTmps, IsStart, Tmp, Step, HasData, Inode;
    InodeIsNew(s0, s, es, n, d);
    PlacedNotMoved(s0, s, es, n, j);
    DataStepRest(s, es[n]);
  }

  lemma DataKeepsOthers(s0: State, s: State, es: seq<Entry>, n: nat)
    requires n < |es| && Orderly(s0, es) && Inv(s0, s, es, n) && InPlace(s, es, n) && es[n].Data?
    ensures InPlace(Step(s, es[n]), es, n)
  {
    hide Step, Tmp, Inv, Orderly, InPlace, SameAt, HasData;
    forall j | 0 <= j < n && HasData(es, es[j].key, n)
      ensures SameAt(s, Step(s, es[n]), es[j].path)
    {
      PlacedSame(s0, s, es, n, j);
    }
    PlaceKept(s, Step(s, es[n]), es, n);
  }

  lemma NotFailed(s0: State, s: State, es: seq<Entry>, n: nat)
    requires n <= |es| && Inv(s0, s, es, n)
    ensures !s.failed
  {
  }

  lemma DataLinksGroup(s0: State, s: State, es: seq<Entry>, n: nat, j: nat)
    requires j <= n < |es| && IsPayload(es) && Inv(s0, s, es, n) && es[n].Data? && es[j].key == es[n].key
    ensures Linked(Step(s, es[n]), es[j], es[n])
  {
    var e := es[n];
    DataStepRest(s, e);
    if j < n {
      OnlyItsOwnWait(s, es, n, j);
    }
    DataStepAt(s, e, es[j].path);
    DataStepAt(s, e, e.path);
    hide Step, Tmp, HasData, TracksData, TracksWaiting, IsPayload, Waiting, Inode;
  }

  lemma DataIsApart(s0: State, s: State, es: seq<Entry>, n: nat, c: nat)
    requires c < n < |es| && Orderly(s0, es) && Inv(s0, s, es, n) && es[c].Data? && es[n].Data?
    ensures Apart(Step(s, es[n]), es[c], es[n])
  {
    NotFailed(s0, s, es, n);
    hide Inv, Collides, SharedTmps, IsStart, IsPayload;
    InodeIsNew(s0, s, es, n, c);
    PlacedNotMoved(s0, s, es, n, c);
    DataStepAt(s, es[n], es[n].path);
    hide Step, Tmp, HasData, Waiting, Inode;
  }

  lemma DataJoins(s0: State, s: State, es: seq<Entry>, n: nat, j: nat, d: nat)
    requires j <= n && d <= n < |es| && IsPayload(es) && Inv(s0, s, es, n) && es[n].Data?
    requires InPlace(Step(s, es[n]), es, n) && es[d].Data? && es[d].key == es[j].key
    ensures Linked(Step(s, es[n]), es[j], es[d])
  {
    if d == n {
      DataLinksGroup(s0, s, es, n, j);
    } else {
      assert es[d].key != es[n].key;
    }
    hide Step, Inv, Linked, Apart, IsPayload;
  }

  lemma DataKeepsPlace(s0: State, s: State, es: seq<Entry>, n: nat)
    requires n < |es| && Orderly(s0, es) && Inv(s0, s, es, n) && InPlace(s, es, n) && es[n].Data?
    ensures InPlace(Step(s, es[n]), es, n + 1)
  {
    var r := Step(s, es[n]);
    DataKeepsOthers(s0, s, es, n);
    hide Step, Inv, Linked, Apart, IsPayload, HasData, Tmp, Collides, SharedTmps;
    forall j, d | 0 <= j < n + 1 && 0 <= d < n + 1 && es[d].Data? && es[d].key == es[j].key
      ensures Linked(r, es[j], es[d])
    {
      DataJoins(s0, s, es, n, j, d);
    }
    forall c, d | 0 <= c < d < n + 1 && es[c].Data? && es[d].Data?
      ensures Apart(r, es[c], es[d])
    {
      if d == n {
        DataIsApart(s0, s, es, n, c);
      }
    }
  }

  lemma DataKeepsTracks(s: State, es: seq<Entry>, n: nat)
    requires n < |es| && TracksData(s, es, n) && TracksWaiting(s, es, n) && es[n].Data?
    requires var r := Step(s, es[n]); r.waiting == s.waiting && r.data == s.data[es[n].key := es[n].path]
    requires !HasData(es, es[n].key, n)
    ensures TracksData(Step(s, es[n]), es, n + 1) && TracksWaiting(Step(s, es[n]), es, n + 1)
  {
    var r := Step(s, es[n]);
    assert forall k :: Waiting(r, k) == Waiting(s, k);
    assert forall d :: 0 <= d < n && es[d].Data? ==> HasData(es, es[d].key, n);
    forall k
      ensures HasData(es, k, n + 1) <==> HasData(es, k, n) || k == es[n].key
    {
      HasDataNext(es, k, n);
    }
    hide Step, HasData, Waiting;
  }

  lemma TmpInjective(a: string, b: string)
    requires Tmp(a) == Tmp(b)
    ensures a == b
  {
    assert |Tmp(a)| == |a| + 8 && |Tmp(b)| == |b| + 8;
    assert Tmp(a)[..|a|] == a && Tmp(b)[..|b|] == b;
  }

  /** No temporary name of a later file is a path the data of entry n moves. */
  lemma LaterTmpNotMoved(s: State, es: seq<Entry>, n: nat, i: nat)
    requires n < i < |es| && IsPayload(es) && TracksWaiting(s, es, n) && !Collides(es) && es[n].Data? && es[i].Data?
    ensures Tmp(es[i].path) != es[n].path && Tmp(es[i].path) !in Waiting(s, es[n].key) && Tmp(es[i].path) != Tmp(es[n].path)
  {
    assert HasData(es, es[n].key, i);
    NotTmpOfLater(es, n, i);
    if Tmp(es[i].path) == Tmp(es[n].path) {
      TmpInjective(es[i].path, es[n].path);
    }
    hide Tmp, HasData, Waiting, Collides;
    if Tmp(es[i].path) in Waiting(s, es[n].key) {
      var j :| 0 <= j < n && es[j] == HardLink(Tmp(es[i].path), es[n].key);
      NotTmpOfLater(es, j, i);
    }
  }

  lemma DataKeepsTmps(s0: State, s: State, es: seq<Entry>, n: nat)
    requires n < |es| && IsPayload(es) && Inv(s0, s, es, n) && !Collides(es) && es[n].Data?
    ensures TmpsAsBefore(s0, Step(s, es[n]), es, n + 1)
  {
    var r, e := Step(s, es[n]), es[n];
    DataStepRest(s, e);
    assert Inode(s, e) < r.next;
    hide Step, Tmp, TracksData, Inode, IsPayload, Collides, HomesKept, Waiting, TracksWaiting;
    forall p | p in r.paths
      ensures r.paths[p] < r.next
    {
      DataStepAt(s, e, p);
    }
    forall i | n + 1 <= i < |es| && es[i].Data?
      ensures SameName(s0, r, Tmp(es[i].path))
    {
      DataStepAt(s, e, Tmp(es[i].path));
      LaterTmpNotMoved(s, es, n, i);
    }
  }

  lemma DataKeepsHomes(s0: State, s: State, es: seq<Entry>, n: nat)
    requires n < |es| && IsPayload(es) && Inv(s0, s, es, n) && !Collides(es) && es[n].Data?
    ensures HomesKept(s0, Step(s, es[n]), es, n + 1)
  {
    var r, e := Step(s, es[n]), es[n];
    DataStepAt(s, e, e.path);
    assert SameName(s0, s, Tmp(e.path));
    assert AtHome(s0, r, e.path);
    forall c | 0 <= c < n && es[c].Data?
      ensures AtHome(s0, r, es[c].path)
    {
      assert AtHome(s0, s, es[c].path) && HasData(es, es[c].key, n);
      PlacedNotMoved(s0, s, es, n, c);
      hide Step, Tmp, Inode, IsPayload, Collides, Waiting, Inv;
    }
  }

  lemma StepData(s0: State, s: State, es: seq<Entry>, n: nat)
    requires n < |es| && IsPayload(es) && !Collides(es) && Inv(s0, s, es, n) && es[n].Data?
    ensures Inv(s0, Step(s, es[n]), es, n + 1)
  {
    DataStepRest(s, es[n]);
    NoEarlierData(es, n);
    DataKeepsTracks(s, es, n);
    DataKeepsTmps(s0, s, es, n);
    DataKeepsHomes(s0, s, es, n);
    hide Step, TracksData, TracksWaiting, TmpsAsBefore, HomesKept, HasData, IsPayload, Collides, Tmp, Inode;
  }

  lemma {:induction false} RunIsTracked(s: State, es: seq<Entry>, n: nat)
    requires n <= |es| && IsPayload(es) && !Collides(es) && IsStart(s)
    ensures Inv(s, Run(s, es[..n]), es, n)
    ensures !SharedTmps(s, es) ==> InPlace(Run(s, es[..n]), es, n)
  {
    hide Step, Inv, InPlace, IsPayload, Collides, IsStart, SharedTmps;
    if n == 0 {
      assert es[..0] == [];
      StartIsInOrder(s, es);
    } else {
      RunIsTracked(s, es, n - 1);
      var r := Run(s, es[..n - 1]);
      assert es[..n][..n - 1] == es[..n - 1];
      if es[n - 1].Data? {
        StepData(s, r, es, n - 1);
        if !SharedTmps(s, es) {
          DataKeepsPlace(s, r, es, n - 1);
        }
      } else if es[n - 1].key in r.data {
        StepLink(s, r, es, n - 1);
      } else {
        StepLinkWaits(s, r, es, n - 1);
      }
    }
  }

  lemma StartIsInOrder(s: State, es: seq<Entry>)
    requires IsStart(s)
    ensures Inv(s, s, es, 0) && InPlace(s, es, 0)
  {
    hide Tmp;
  }

  lemma GroupsAreApart(s: State, es: seq<Entry>, i: nat, j: nat)
    requires IsPayload(es) && InPlace(s, es, |es|) && i < |es| && j < |es| && es[i].key != es[j].key
    ensures Apart(s, es[i], es[j])
  {
    assert HasData(es, es[i].key, |es|) && HasData(es, es[j].key, |es|);
    hide IsPayload;
    var c :| 0 <= c < |es| && es[c].Data? && es[c].key == es[i].key;
    var d :| 0 <= d < |es| && es[d].Data? && es[d].key == es[j].key;
    assert Linked(s, es[i], es[c]) && Linked(s, es[j], es[d]);
    assert c < d ==> Apart(s, es[c], es[d]);
    assert d < c ==> Apart(s, es[d], es[c]);
  }

  lemma InOrderMeansLinked(s: State, es: seq<Entry>)
    requires IsPayload(es) && !s.failed && InPlace(s, es, |es|)
    ensures AllLinked(s, es)
  {
    hide IsPayload, Apart, Linked;
    forall i, j | 0 <= i < |es| && 0 <= j < |es| && es[i].key != es[j].key
      ensures Apart(s, es[i], es[j])
    {
      GroupsAreApart(s, es, i, j);
    }
  }

  // ---- with a collision, a path is lost for good --------------------------------------------------

  ghost predicate OnlyLinksWait(s: State, es: seq<Entry>, n: nat)
    requires n <= |es|
  {
    forall k, p :: p in Waiting(s, k) ==> exists j :: 0 <= j < n && es[j] == HardLink(p, k)
  }

  lemma {:induction false} LinkAllKeepsWaiting(s: State, source: string, targets: seq<string>)
    ensures LinkAll(s, source, targets).waiting == s.waiting
  {
    if targets != [] {
      LinkAllKeepsWaiting(s, source, targets[..|targets| - 1]);
    }
  }

  lemma {:induction false} LinkAllAddsTargets(s: State, source: string, targets: seq<string>, p: string)
    requires p !in targets && p !in s.paths
    ensures p !in LinkAll(s, source, targets).paths
  {
    if targets != [] {
      var init, last := targets[..|targets| - 1], targets[|targets| - 1];
      assert p !in init && last in targets;
      LinkAllAddsTargets(s, source, init, p);
    }
  }

  lemma StepWaits(s: State, es: seq<Entry>, n: nat)
    requires n < |es| && OnlyLinksWait(s, es, n)
    ensures OnlyLinksWait(Step(s, es[n]), es, n + 1)
  {
    var r, e := Step(s, es[n]), es[n];
    if e.Data? {
      var w := WriteFile(s, e.path, e.text);
      LinkAllKeepsWaiting(w.(data := w.data[e.key := e.path]), e.path, Waiting(s, e.key));
      assert r.waiting == s.waiting;
    }
    forall k, p | p in Waiting(r, k)
      ensures exists j :: 0 <= j < n + 1 && es[j] == HardLink(p, k)
    {
      if p !in Waiting(s, k) {
        assert es[n] == HardLink(p, k);
      } else {
        var j :| 0 <= j < n && es[j] == HardLink(p, k);
      }
    }
  }

  lemma {:induction false} RunWaits(s: State, es: seq<Entry>, n: nat)
    requires n <= |es| && IsStart(s)
    ensures OnlyLinksWait(Run(s, es[..n]), es, n)
  {
    if n > 0 {
      RunWaits(s, es, n - 1);
      assert es[..n][..n - 1] == es[..n - 1];
      StepWaits(Run(s, es[..n - 1]), es, n - 1);
      hide Step, IsStart, OnlyLinksWait;
    }
  }

  ghost predicate Lost(s: State, p: string) {
    s.failed || p !in s.paths
  }

  /** A step that neither writes p nor links it leaves it lost; renaming it away loses it. */
  lemma StepLoses(s: State, e: Entry, p: string)
    requires p != e.path && p !in Waiting(s, e.key)
    requires Lost(s, p) || (e.Data? && p == Tmp(e.path))
    ensures Lost(Step(s, e), p)
  {
    if !s.failed && e.Data? {
      var w := WriteFile(s, e.path, e.text);
      LinkAllAddsTargets(w.(data := w.data[e.key := e.path]), e.path, Waiting(s, e.key), p);
      hide LinkAll;
    }
  }

  lemma PlacedNeverWaits(s: State, es: seq<Entry>, j: nat, m: nat)
    requires IsPayload(es) && m < |es| && Placed(es, j, m) && OnlyLinksWait(s, es, m) && es[m].Data?
    ensures es[j].path !in Waiting(s, es[m].key)
  {
    NoEarlierData(es, m);
    assert es[j].key != es[m].key;
    assert forall a :: 0 <= a < m && es[a].path == es[j].path ==> a == j;
    hide HasData, Waiting;
  }

  lemma PlacedStaysPlaced(es: seq<Entry>, j: nat, i: nat, m: nat)
    requires i <= m <= |es| && Placed(es, j, i)
    ensures Placed(es, j, m)
  {
    var d :| 0 <= d < i && es[d].Data? && es[d].key == es[j].key;
  }

  /** Once a placed path has served as a temporary name it never comes back. */
  lemma {:induction false} CollisionLoses(s: State, es: seq<Entry>, j: nat, i: nat, n: nat)
    requires IsPayload(es) && IsStart(s) && j < i < n <= |es|
    requires es[i].Data? && es[j].path == Tmp(es[i].path) && Placed(es, j, i)
    ensures Lost(Run(s, es[..n]), es[j].path)
    decreases n
  {
    hide *;
    var m := n - 1;
    var r := Run(s, es[..m]);
    if i < m {
      CollisionLoses(s, es, j, i, m);
      assert Lost(r, es[j].path);
    }
    RunWaits(s, es, m);
    PlacedStaysPlaced(es, j, i, m);
    assert m == i ==> es[m].Data? && es[j].path == Tmp(es[m].path);
    StillLost(r, es, j, m);
    RunSnoc(s, es, m);
  }

  lemma RunSnoc(s: State, es: seq<Entry>, n: nat)
    requires n < |es|
    ensures Run(s, es[..n + 1]) == Step(Run(s, es[..n]), es[n])
  {
    assert es[..n + 1][..n] == es[..n];
    hide Step;
  }

  lemma StillLost(r: State, es: seq<Entry>, j: nat, m: nat)
    requires IsPayload(es) && j < m < |es| && Placed(es, j, m) && OnlyLinksWait(r, es, m)
    requires Lost(r, es[j].path) || (es[m].Data? && es[j].path == Tmp(es[m].path))
    ensures Lost(Step(r, es[m]), es[j].path)
  {
    assert es[m].path != es[j].path;
    hide Step, Tmp, Placed, OnlyLinksWait, IsPayload;
    if es[m].Data? {
      PlacedNeverWaits(r, es, j, m);
      StepLoses(r, es[m], es[j].path);
    } else {
      LinkKeepsLost(r, es[m], es[j].path);
    }
  }

  lemma LinkKeepsLost(s: State, e: Entry, p: string)
    requires e.HardLink? && Lost(s, p) && p != e.path
    ensures Lost(Step(s, e), p)
  {
  }

  lemma LostIsNotLinked(s: State, es: seq<Entry>, j: nat, d: nat)
    requires j < |es| && d < |es| && es[d].Data? && es[d].key == es[j].key && Lost(s, es[j].path)
    ensures !AllLinked(s, es)
  {
    assert s.failed || !Linked(s, es[j], es[d]);
    hide Apart;
  }

  // ---- the main result --------------------------------------------------------------------------

  /** Two files written through one inode share it for good. */
  lemma SharedIsNotApart(s0: State, s: State, es: seq<Entry>)
    requires IsPayload(es) && Inv(s0, s, es, |es|) && SharedTmps(s0, es)
    ensures !AllLinked(s, es)
  {
    var e, f :| e in es && f in es && SharesTmp(s0, e, f);
    var c :| 0 <= c < |es| && es[c] == e;
    var d :| 0 <= d < |es| && es[d] == f;
    assert AtHome(s0, s, es[c].path) && AtHome(s0, s, es[d].path);
    assert es[c].key != es[d].key && !Apart(s, es[c], es[d]);
    hide Tmp, Linked, HasData;
  }

  /** Extraction puts every group of links together, in whatever order its entries come
      and whatever the disk held before, exactly when no path already in place is the
      temporary name of a later file, and the disk did not hold the temporary names of
      two files as links to one inode. */
  lemma LinkedExactly(s: State, es: seq<Entry>)
    requires IsPayload(es) && IsStart(s)
    ensures AllLinked(Run(s, es), es) <==> !Collides(es) && !SharedTmps(s, es)
  {
    assert es[..|es|] == es;
    hide Run, IsStart, Inv, Tmp, SharedTmps, InPlace;
    if !Collides(es) {
      RunIsTracked(s, es, |es|);
      NotFailed(s, Run(s, es), es, |es|);
      if SharedTmps(s, es) {
        SharedIsNotApart(s, Run(s, es), es);
      } else {
        InOrderMeansLinked(Run(s, es), es);
      }
    } else {
      var j, i :| 0 <= j < i < |es| && es[i].Data? && es[j].path == Tmp(es[i].path) && Placed(es, j, i);
      CollisionLoses(s, es, j, i, |es|);
      assert HasData(es, es[j].key, |es|);
      var d :| 0 <= d < |es| && es[d].Data? && es[d].key == es[j].key;
      LostIsNotLinked(Run(s, es), es, j, d);
    }
  }

  // ---- when extraction fails -----------------------------------------------------------------------

  /** Data entry d has been renamed away by a later file among the first n entries. */
  ghost predicate Overtaken(es: seq<Entry>, d: nat, n: nat)
    requires n <= |es|
  {
    exists i :: d < i < n && es[i].Data? && es[d].path == Tmp(es[i].path)
  }

  /** Link l comes after the data of its group has been renamed away. */
  ghost predicate Orphaned(es: seq<Entry>, l: nat)
    requires l < |es|
  {
    es[l].HardLink? && exists d :: 0 <= d < l && es[d].Data? && es[d].key == es[l].key && Overtaken(es, d, l)
  }

  ghost predicate HasOrphan(es: seq<Entry>, n: nat)
    requires n <= |es|
  {
    exists l :: 0 <= l < n && Orphaned(es, l)
  }

  /** The data entries still in place are those not overtaken. */
  ghost predicate DataInPlace(s: State, es: seq<Entry>, n: nat)
    requires n <= |es|
  {
    forall d :: 0 <= d < n && es[d].Data? ==> (es[d].path in s.paths <==> !Overtaken(es, d, n))
  }

  lemma DataTracked(s: State, es: seq<Entry>, n: nat)
    requires n < |es| && IsPayload(es) && TracksData(s, es, n) && !s.failed && es[n].Data?
    ensures TracksData(Step(s, es[n]), es, n + 1) && !Step(s, es[n]).failed
  {
    DataStepRest(s, es[n]);
    forall k
      ensures HasData(es, k, n + 1) <==> HasData(es, k, n) || es[n].key == k
    {
      HasDataNext(es, k, n);
    }
    hide Step, HasData, Tmp;
  }

  lemma LinkTracked(s: State, es: seq<Entry>, n: nat)
    requires n < |es| && TracksData(s, es, n) && !s.failed && es[n].HardLink?
    ensures TracksData(Step(s, es[n]), es, n + 1)
  {
    assert Step(s, es[n]).data == s.data;
    forall k
      ensures HasData(es, k, n + 1) <==> HasData(es, k, n)
    {
      HasDataNext(es, k, n);
    }
    hide Step, HasData;
  }

  /** A link fails exactly when the data of its group is gone. */
  lemma LinkFails(s: State, es: seq<Entry>, n: nat)
    requires n < |es| && IsPayload(es) && TracksData(s, es, n) && DataInPlace(s, es, n) && !s.failed && es[n].HardLink?
    ensures Step(s, es[n]).failed <==> Orphaned(es, n)
  {
    hide Overtaken;
    if es[n].key in s.data {
      assert HasData(es, es[n].key, n);
      var c :| 0 <= c < n && es[c].Data? && es[c].key == es[n].key;
      assert es[c].path != es[n].path && s.data[es[n].key] == es[c].path;
    }
  }

  lemma StepKeepsPath(s: State, e: Entry, p: string)
    requires !s.failed && p in s.paths && (e.Data? ==> p != Tmp(e.path))
    ensures p in Step(s, e).paths
  {
    hide Tmp;
    if e.Data? {
      DataStepAt(s, e, p);
      hide Step;
    }
  }

  lemma OvertakenNext(es: seq<Entry>, d: nat, n: nat)
    requires d < n < |es|
    ensures Overtaken(es, d, n + 1) <==> Overtaken(es, d, n) || (es[n].Data? && es[d].path == Tmp(es[n].path))
  {
    hide Tmp;
  }

  /** From s to r entry n has put nothing away but what stood under its temporary name. */
  ghost predicate PutsAway(s: State, e: Entry, r: State) {
    && (forall p :: p in s.paths && (e.Data? ==> p != Tmp(e.path)) ==> p in r.paths)
    && (e.Data? ==> e.path in r.paths)
  }

  lemma StepPutsAway(s: State, e: Entry)
    requires !s.failed
    ensures PutsAway(s, e, Step(s, e))
  {
    hide Tmp, Step;
    if e.Data? {
      DataStepAt(s, e, e.path);
    }
    forall p | p in s.paths && (e.Data? ==> p != Tmp(e.path))
      ensures p in Step(s, e).paths
    {
      StepKeepsPath(s, e, p);
    }
  }

  /** The data entries not overtaken stay in place, and those overtaken are lost. */
  lemma DataStaysInPlace(s0: State, s: State, r: State, es: seq<Entry>, n: nat)
    requires n < |es| && IsPayload(es) && IsStart(s0) && DataInPlace(s, es, n)
    requires r == Run(s0, es[..n + 1]) && !r.failed && PutsAway(s, es[n], r)
    ensures DataInPlace(r, es, n + 1)
  {
    hide Run, IsPayload, IsStart, Tmp, Overtaken;
    forall d | 0 <= d < n + 1 && es[d].Data?
      ensures es[d].path in r.paths <==> !Overtaken(es, d, n + 1)
    {
      if d == n {
        NothingAfter(es, n);
      } else {
        OvertakenNext(es, d, n);
        if Overtaken(es, d, n + 1) {
          OvertakenIsGone(s0, es, d, n + 1);
        }
      }
    }
  }

  lemma NothingAfter(es: seq<Entry>, n: nat)
    requires n < |es|
    ensures !Overtaken(es, n, n + 1)
  {
  }

  lemma OvertakenIsGone(s: State, es: seq<Entry>, d: nat, n: nat)
    requires IsPayload(es) && IsStart(s) && d < n <= |es| && es[d].Data? && Overtaken(es, d, n)
    ensures Lost(Run(s, es[..n]), es[d].path)
  {
    var i :| d < i < n && es[i].Data? && es[d].path == Tmp(es[i].path);
    assert HasData(es, es[d].key, i);
    CollisionLoses(s, es, d, i, n);
    hide Run, Tmp;
  }

  lemma HasOrphanNext(es: seq<Entry>, n: nat)
    requires n < |es|
    ensures HasOrphan(es, n + 1) <==> HasOrphan(es, n) || Orphaned(es, n)
  {
    hide Orphaned;
  }

  lemma {:induction false} FailsWithin(s: State, es: seq<Entry>, n: nat)
    requires n <= |es| && IsPayload(es) && IsStart(s)
    ensures var r := Run(s, es[..n]);
      && (r.failed <==> HasOrphan(es, n))
      && (!r.failed ==> TracksData(r, es, n) && DataInPlace(r, es, n))
  {
    if n > 0 {
      var m := n - 1;
      FailsWithin(s, es, m);
      RunSnoc(s, es, m);
      HasOrphanNext(es, m);
      var r := Run(s, es[..m]);
      hide Run, IsPayload, IsStart, TracksData, DataInPlace, HasOrphan;
      if r.failed {
        assert Step(r, es[m]) == r;
      } else {
        if es[m].Data? {
          DataTracked(r, es, m);
        } else {
          LinkTracked(r, es, m);
          LinkFails(r, es, m);
        }
        hide Step, Orphaned;
        if !Step(r, es[m]).failed {
          StepPutsAway(r, es[m]);
          DataStaysInPlace(s, r, Step(r, es[m]), es, m);
        }
      }
    }
  }

  /** Extraction stops with a link that has nothing to link to exactly when some link comes
      after a file whose temporary name was the path of the group's data. */
  lemma FailsExactly(s: State, es: seq<Entry>)
    requires IsPayload(es) && IsStart(s)
    ensures Run(s, es).failed <==> exists l :: 0 <= l < |es| && Orphaned(es, l)
  {
    FailsWithin(s, es, |es|);
    assert es[..|es|] == es;
    hide Run, IsPayload, IsStart, Orphaned, TracksData, DataInPlace;
  }

  ghost predicate NoTmpNames(es: seq<Entry>) {
    forall e, f :: e in es && f in es && f.Data? ==> e.path != Tmp(f.path)
  }

  /** A payload without temporary names among its paths can come in any order: what
      becomes of it depends on the disk alone. */
  lemma AnyOrderLinks(s: State, es: seq<Entry>, other: seq<Entry>)
    requires NoTmpNames(es) && (forall e :: e in other <==> e in es)
    requires IsPayload(other) && IsStart(s)
    ensures AllLinked(Run(s, other), other) <==> !SharedTmps(s, es)
  {
    NoTmpNamesNoCollision(es, other);
    LinkedExactly(s, other);
    assert SharedTmps(s, other) <==> SharedTmps(s, es) by { hide SharesTmp; }
    hide *;
  }

  lemma NoTmpNamesNoCollision(es: seq<Entry>, other: seq<Entry>)
    requires NoTmpNames(es) && (forall e :: e in other ==> e in es)
    ensures !Collides(other)
  {
    hide Tmp, Placed;
    forall j, i | 0 <= j < i < |other| && other[i].Data?
      ensures other[j].path != Tmp(other[i].path)
    {
      assert other[i] in es && other[j] in es;
    }
  }

  /** A package shipping both "/a" and "/a.rpm-new" is extracted wrongly in one order and
      rightly in the other. */
  lemma OrderCanMatter(s: State, k: Key, l: Key, x: string, y: string)
    requires k != l && s.data == map[] && s.waiting == map[] && !s.failed && s.paths == map[]
    ensures var a, b := Data("/a", k, x), Data("/a.rpm-new", l, y);
            AllLinked(Run(s, [a, b]), [a, b]) && !AllLinked(Run(s, [b, a]), [b, a])
  {
    var a, b := Data("/a", k, x), Data("/a.rpm-new", l, y);
    assert Tmp("/a") == "/a.rpm-new";
    assert |Tmp("/a.rpm-new")| > |"/a"|;
    assert |"/a"| != |"/a.rpm-new"|;
    PairIsPayload(a, b);
    PairIsPayload(b, a);
    assert IsStart(s) && !SharedTmps(s, [a, b]);
    hide Tmp, AllLinked, Run, SharedTmps;
    LinkedExactly(s, [a, b]);
    LinkedExactly(s, [b, a]);
    assert Placed([b, a], 0, 1) by {
      assert HasData([b, a], l, 1) by { assert [b, a][0].key == l; }
    }
    assert [b, a][1].Data? && [b, a][0].path == Tmp([b, a][1].path);
    assert Collides([b, a]);
    assert !Collides([a, b]);
  }

  lemma PairIsPayload(a: Entry, b: Entry)
    requires a.Data? && b.Data? && a.key != b.key && a.path != b.path
    ensures IsPayload([a, b])
  {
    assert [a, b][0] == a && [a, b][1] == b;
    assert HasData([a, b], a.key, 2) && HasData([a, b], b.key, 2);
  }

  // ---- the extraction loop -------------------------------------------------------------------------

  /** The directory tree as far as regular files go. */
  class FileTree {
    var paths: map<string, nat>
    var texts: map<nat, string>
    var next: nat

    constructor (paths: map<string, nat>, texts: map<nat, string>, next: nat)
      ensures this.paths == paths && this.texts == texts && this.next == next
    {
      this.paths, this.texts, this.next := paths, texts, next;
    }

    /** os.Create: an existing file keeps its inode and loses its text. */
    method Create(path: string) returns (ok: bool, inode: nat)
      modifies this
      ensures ok ==> inode == if path in old(paths) then old(paths)[path] else old(next)
      ensures ok ==> paths == old(paths)[path := inode] && texts == old(texts)[inode := ""]
      ensures ok ==> next == if path in old(paths) then old(next) else old(next) + 1
    {
      ok, inode := *, next;
      if ok {
        if path in paths {
          inode := paths[path];
        } else {
          next := next + 1;
        }
        paths, texts := paths[path := inode], texts[inode := ""];
      }
    }

    method Rename(from: string, to: string) returns (ok: bool)
      requires from in paths && from != to
      modifies this
      ensures texts == old(texts) && next == old(next)
      ensures paths == if ok then (old(paths) - {from})[to := old(paths)[from]] else old(paths)
    {
      ok := *;
      if ok {
        paths := (paths - {from})[to := paths[from]];
      }
    }

    method Remove(path: string)
      modifies this`paths
      ensures paths == old(paths) || paths == old(paths) - {path}
    {
      if * {
        paths := paths - {path};
      }
    }

    /** os.Link: the source must exist and the target must not. */
    method MakeLink(source: string, target: string) returns (ok: bool)
      modifies this`paths
      ensures if ok then source in old(paths) && target !in old(paths) && paths == old(paths)[target := old(paths)[source]]
              else paths == old(paths)
    {
      ok := *;
      ok := ok && source in paths && target !in paths;
      if ok {
        paths := paths[target := paths[source]];
      }
    }

    /** The state with the given tracker maps, nothing having failed so far. */
    ghost function View(data: map<Key, string>, waiting: map<Key, seq<string>>): State
      reads this
    {
      State(paths, texts, next, data, waiting, false)
    }
  }

  /** writeRegularFile: through a temporary file that is renamed over the target. */
  method WriteRegularFile(tree: FileTree, path: string, text: string) returns (ok: bool)
    modifies tree
    ensures ok ==> forall data, waiting :: tree.View(data, waiting) == WriteFile(old(tree.View(data, waiting)), path, text)
  {
    hide Tmp;
    ghost var before := tree.View(map[], map[]);
    var tmp, inode := Tmp(path), 0;
    ok, inode := tree.Create(tmp);
    if !ok {
      return;
    }
    ok := *;
    if !ok {
      tree.Remove(tmp);
      return;
    }
    tree.texts := tree.texts[inode := text];
    ok := tree.Rename(tmp, path);
    if !ok {
      tree.Remove(tmp);
      return;
    }
    ghost var after := WriteFile(before, path, text);
    assert before.texts[inode := ""][inode := text] == before.texts[inode := text];
    assert before.paths[tmp := inode] - {tmp} == before.paths - {tmp};
    assert tree.paths == after.paths && tree.texts == after.texts && tree.next == after.next;
  }

  method MakeHardlink(tree: FileTree, source: string, target: string) returns (ok: bool)
    modifies tree`paths
    ensures ok ==> forall data, waiting :: tree.View(data, waiting) == Link(old(tree.View(data, waiting)), source, target)
  {
    ok := true;
    if source != target {
      tree.Remove(target);
      ghost var left := tree.paths;
      ok := tree.MakeLink(source, target);
      assert ok ==> left[target := left[source]] == old(tree.paths)[target := old(tree.paths)[source]];
    }
  }

  class HardlinkTracker {
    /** The path of the data of each group written so far. */
    var data: map<Key, string>
    /** Links of groups whose data has not come yet. */
    var placeholders: map<Key, seq<string>>

    constructor ()
      ensures data == map[] && placeholders == map[]
    {
      data, placeholders := map[], map[];
    }

    ghost function View(tree: FileTree): State
      reads this, tree
    {
      tree.View(data, placeholders)
    }

    method HandleHardlink(tree: FileTree, key: Key, path: string) returns (ok: bool)
      modifies this, tree
      ensures ok ==> View(tree) == Step(old(View(tree)), HardLink(path, key))
    {
      if key in data {
        ok := MakeHardlink(tree, data[key], path);
        return;
      }
      placeholders := placeholders[key := (if key in placeholders then placeholders[key] else []) + [path]];
      ok := true;
    }

    /** The new data, and every link that waited for it. */
    method MaterializeData(tree: FileTree, key: Key, path: string) returns (ok: bool)
      modifies this`data, tree
      ensures ok ==>
        View(tree) == LinkAll(old(View(tree)).(data := old(data)[key := path]), path, Waiting(old(View(tree)), key))
    {
      data := data[key := path];
      var queued := if key in placeholders then placeholders[key] else [];
      ghost var start := View(tree);
      ok := true;
      assert queued[..0] == [];
      for i := 0 to |queued|
        invariant ok && data == start.data && View(tree) == LinkAll(start, path, queued[..i])
      {
        assert queued[..i + 1][..i] == queued[..i];
        ok := MakeHardlink(tree, path, queued[i]);
        if !ok {
          return;
        }
      }
      assert queued[..|queued|] == queued;
    }

    method HandleRegularEntry(tree: FileTree, e: Entry) returns (ok: bool)
      modifies this, tree
      ensures ok ==> View(tree) == Step(old(View(tree)), e)
    {
      match e
      case HardLink(path, key) =>
        ok := HandleHardlink(tree, key, path);
      case Data(path, key, text) =>
        ok := WriteRegularFile(tree, path, text);
        if ok {
          ok := MaterializeData(tree, key, path);
        }
    }
  }

  /** The payload loop over regular entries. After a run without errors every group of
      links is together exactly when no path in place was the temporary name of a later
      file and no two temporary names were links to one inode at the start. */
  method Extract(tree: FileTree, es: seq<Entry>) returns (ok: bool)
    requires IsPayload(es) && IsStart(tree.View(map[], map[]))
    modifies tree
    ensures ok ==> exists data, waiting :: tree.View(data, waiting) == Run(old(tree.View(map[], map[])), es)
    ensures ok ==> (AllLinked(tree.View(map[], map[]), es) <==> !Collides(es) && !SharedTmps(old(tree.View(map[], map[])), es))
    ensures ok ==> forall l :: 0 <= l < |es| ==> !Orphaned(es, l)
  {
    hide IsPayload, IsStart, Step, AllLinked, Collides, SharedTmps, Orphaned;
    var tracker := new HardlinkTracker();
    ghost var start := tracker.View(tree);
    ok := true;
    assert es[..0] == [];
    for i := 0 to |es|
      invariant ok && fresh(tracker) && tracker.View(tree) == Run(start, es[..i])
    {
      assert es[..i + 1][..i] == es[..i];
      ok := tracker.HandleRegularEntry(tree, es[i]);
      if !ok {
        return;
      }
    }
    assert es[..|es|] == es;
    LinkedExactly(start, es);
    FailsExactly(start, es);
    assert tree.View(tracker.data, tracker.placeholders) == Run(start, es);
    LinkedWhateverTracked(tree.View(tracker.data, tracker.placeholders), tree.View(map[], map[]), es);
  }

  lemma LinkedWhateverTracked(s: State, r: State, es: seq<Entry>)
    requires s.paths == r.paths && s.texts == r.texts && s.failed == r.failed
    ensures AllLinked(s, es) <==> AllLinked(r, es)
  {
    assert forall e: Entry, d: Entry :: d.Data? ==> (Linked(s, e, d) <==> Linked(r, e, d));
    assert forall e: Entry, f: Entry :: Apart(s, e, f) <==> Apart(r, e, f);
    hide Linked, Apart;
  }
}
