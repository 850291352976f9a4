/** Transitive resolution over the Alpine index: a name is a package, or stands
    for its first provider. */
module ApkResolver {
  import opened Text
  import opened Dfs

  datatype Pkg = Pkg(name: string, version: string, arch: string, checksum: string, depends: seq<string>, provided: seq<string>)

  datatype Index = Index(packages: map<string, Pkg>, providers: map<string, seq<Pkg>>)

  const EMPTY: Index := Index(map[], map[])

  // ---- the index --------------------------------------------------------------

  predicate Occurs(s: string, op: string)
    requires op != ""
  {
    |BeforeSub(s, op)| < |s|
  }

  /** `stripVersionConstraint`: cut at the first operator, tried in this order,
      that occurs; two-byte operators go first. */
  function Strip(spec: string): string {
    var s := Trim(spec);
    if Occurs(s, "!=") then Trim(BeforeSub(s, "!="))
    else if Occurs(s, ">=") then Trim(BeforeSub(s, ">="))
    else if Occurs(s, "<=") then Trim(BeforeSub(s, "<="))
    else if Occurs(s, "~") then Trim(BeforeSub(s, "~"))
    else if Occurs(s, "=") then Trim(BeforeSub(s, "="))
    else if Occurs(s, ">") then Trim(BeforeSub(s, ">"))
    else if Occurs(s, "<") then Trim(BeforeSub(s, "<"))
    else s
  }

  // ---- what a constraint is cut to ----------------------------------------------

  predicate IsOp(c: char) {
    c == '!' || c == '<' || c == '>' || c == '=' || c == '~'
  }

  predicate NoOp(s: string) {
    forall i :: 0 <= i < |s| ==> !IsOp(s[i])
  }

  predicate Operator(op: string) {
    op == "!=" || op == ">=" || op == "<=" || op == "~" || op == "=" || op == ">" || op == "<"
  }

  /** An operator that op neither begins with nor ends in occurs nowhere. */
  lemma NotThere(name: string, op: string, version: string, other: string)
    requires NoOp(name) && NoOp(version) && Operator(op) && Operator(other)
    requires !(other <= op) && (|op| == 2 ==> other != "=")
    ensures !Occurs(name + op + version, other)
  {
    var s := name + op + version;
    forall i | 0 <= i < |s|
      ensures !(other <= s[i..])
    {
      BeginsAt(s, other, i);
      Middle(name, op, version, i);
    }
    BeforeSubNothing(s, other);
  }

  lemma Middle(name: string, op: string, version: string, i: nat)
    requires i < |name + op + version|
    ensures (name + op + version)[i] ==
      if i < |name| then name[i] else if i < |name| + |op| then op[i - |name|] else version[i - |name| - |op|]
    ensures i == |name| && |op| == 1 && version != "" ==> (name + op + version)[i + 1] == version[0]
    ensures i == |name| && |op| == 2 ==> (name + op + version)[i + 1] == op[1]
  {
  }

  lemma There(name: string, op: string, version: string)
    requires NoOp(name) && Operator(op)
    ensures Occurs(name + op + version, op) && BeforeSub(name + op + version, op) == name
  {
    forall i | 0 <= i < |name|
      ensures !(op <= (name + op + version)[i..])
    {
      assert (name + op + version)[i..][0] == name[i];
    }
    BeforeSubAt(name, op, version);
  }

  lemma FirstOperatorCuts(s: string, op: string)
    requires Trim(s) == s && Operator(op) && Occurs(s, op)
    requires op != "!=" ==> !Occurs(s, "!=")
    requires op != "!=" && op != ">=" ==> !Occurs(s, ">=")
    requires op != "!=" && op != ">=" && op != "<=" ==> !Occurs(s, "<=") && (op != "~" ==> !Occurs(s, "~"))
    requires op == ">" || op == "<" ==> !Occurs(s, "=")
    requires op == "<" ==> !Occurs(s, ">")
    ensures Strip(s) == Trim(BeforeSub(s, op))
  {
    hide Trim, BeforeSub, Occurs;
  }

  lemma NothingIsCut(s: string)
    requires Trimmed(s) && NoOp(s)
    ensures Strip(s) == s
  {
    TrimOfTrimmed(s);
    NoneIn(s);
    hide Trim, BeforeSub, Occurs, NoOp;
  }

  /** "musl>=1.2" asks for "musl", whatever the operator. */
  lemma ConstraintIsCut(name: string, op: string, version: string)
    requires Trimmed(name) && name != "" && NoOp(name) && NoOp(version) && Operator(op)
    requires version == "" || !IsSpace(version[|version| - 1])
    ensures Strip(name + op + version) == name && Strip(name) == name
  {
    var s := name + op + version;
    TrimOfTrimmed(name);
    TrimOfTrimmed(s);
    There(name, op, version);
    OperatorsBefore(name, op, version);
    hide Trim, BeforeSub, NoOp, Occurs, Strip;
    FirstOperatorCuts(s, op);
    NothingIsCut(name);
  }

  /** Of the operators tried before op none occurs. */
  lemma OperatorsBefore(name: string, op: string, version: string)
    requires NoOp(name) && NoOp(version) && Operator(op)
    ensures var s := name + op + version;
      && (op != "!=" ==> !Occurs(s, "!="))
      && (op != "!=" && op != ">=" ==> !Occurs(s, ">="))
      && (op != "!=" && op != ">=" && op != "<=" ==> !Occurs(s, "<=") && (op != "~" ==> !Occurs(s, "~")))
      && (op == ">" || op == "<" ==> !Occurs(s, "="))
      && (op == "<" ==> !Occurs(s, ">"))
  {
    hide Occurs;
    if op != "!=" {
      NotThere(name, op, version, "!=");
    }
    if op != "!=" && op != ">=" {
      NotThere(name, op, version, ">=");
    }
    if op == "~" || op == "=" || op == ">" || op == "<" {
      NotThere(name, op, version, "<=");
    }
    if op == "=" || op == ">" || op == "<" {
      NotThere(name, op, version, "~");
    }
    if op == ">" || op == "<" {
      NotThere(name, op, version, "=");
    }
    if op == "<" {
      NotThere(name, op, version, ">");
    }
  }

  lemma NoneIn(s: string)
    requires NoOp(s)
    ensures forall op :: Operator(op) ==> !Occurs(s, op)
  {
    forall op | Operator(op)
      ensures !Occurs(s, op)
    {
      forall i | 0 <= i < |s|
        ensures !(op <= s[i..])
      {
        assert s[i..][0] == s[i];
      }
      BeforeSubNothing(s, op);
    }
  }

  /** A tilde inside the version is tried before "<", ">" and "=", so that the name then
      keeps the constraint in front of it. */
  lemma TildeIsCutFirst(name: string, op: string, a: string, b: string)
    requires Trimmed(name) && name != "" && NoOp(name) && NoOp(a) && NoOp(b) && (op == "<" || op == ">" || op == "=")
    requires a != "" && !IsSpace(a[|a| - 1]) && b != "" && !IsSpace(b[|b| - 1])
    ensures Strip(name + op + a + "~" + b) == name + op + a
  {
    var front, s := name + op + a, name + op + a + "~" + b;
    TrimOfTrimmed(s);
    TrimOfTrimmed(front);
    TildeFound(name, op, a, b);
    hide Trim, BeforeSub, NoOp, Occurs;
  }

  lemma TildeFound(name: string, op: string, a: string, b: string)
    requires NoOp(name) && NoOp(a) && NoOp(b) && (op == "<" || op == ">" || op == "=") && a != ""
    ensures var s := name + op + a + "~" + b;
      !Occurs(s, "!=") && !Occurs(s, ">=") && !Occurs(s, "<=") && Occurs(s, "~") && BeforeSub(s, "~") == name + op + a
  {
    var front, s := name + op + a, name + op + a + "~" + b;
    forall i | 0 <= i < |s|
      ensures !("!=" <= s[i..]) && !(">=" <= s[i..]) && !("<=" <= s[i..])
      ensures i < |front| ==> !("~" <= s[i..])
    {
      BeginsAt(s, "!=", i);
      BeginsAt(s, ">=", i);
      BeginsAt(s, "<=", i);
      BeginsAt(s, "~", i);
      ByteOf(name, op, a, b, i);
      if i + 1 < |s| {
        ByteOf(name, op, a, b, i + 1);
      }
    }
    BeforeSubNothing(s, "!=");
    BeforeSubNothing(s, ">=");
    BeforeSubNothing(s, "<=");
    BeforeSubAt(front, "~", b);
  }

  lemma ByteOf(name: string, op: string, a: string, b: string, i: nat)
    requires |op| == 1 && i < |name + op + a + "~" + b|
    ensures (name + op + a + "~" + b)[i] ==
      if i < |name| then name[i] else if i == |name| then op[0]
      else if i < |name| + 1 + |a| then a[i - |name| - 1] else if i == |name| + 1 + |a| then '~' else b[i - |name| - |a| - 2]
  {
  }

  function ProvidersOf(m: map<string, seq<Pkg>>, name: string): seq<Pkg> {
    if name in m then m[name] else []
  }

  function Register(m: map<string, seq<Pkg>>, p: Pkg, caps: seq<string>): map<string, seq<Pkg>>
    decreases |caps|
  {
    if caps == [] then m
    else
      var rest := Register(m, p, caps[..|caps| - 1]);
      var c := Strip(caps[|caps| - 1]);
      if c == "" then rest else rest[c := ProvidersOf(rest, c) + [p]]
  }

  /** The first package of a name wins; every package registers what it provides. */
  function Flush(ix: Index, p: Pkg): Index {
    if p.name == "" then ix
    else Index(if p.name in ix.packages then ix.packages else ix.packages[p.name := p],
               Register(ix.providers, p, p.provided))
  }

  /** The index of a list of packages, as they come. */
  function Built(ps: seq<Pkg>): Index {
    if ps == [] then EMPTY else Flush(Built(ps[..|ps| - 1]), ps[|ps| - 1])
  }

  /** p is the first package of the list that carries the name. */
  ghost predicate IsFirst(ps: seq<Pkg>, name: string, p: Pkg) {
    p.name == name && exists i :: 0 <= i < |ps| && ps[i] == p && forall j :: 0 <= j < i ==> ps[j].name != name
  }

  lemma FirstStays(ps: seq<Pkg>, name: string, p: Pkg, q: Pkg)
    requires IsFirst(ps, name, p)
    ensures IsFirst(ps + [q], name, p)
  {
    var i :| 0 <= i < |ps| && ps[i] == p && forall j :: 0 <= j < i ==> ps[j].name != name;
    assert (ps + [q])[i] == p;
  }

  lemma NewFirst(ps: seq<Pkg>, q: Pkg)
    requires forall p :: p in ps ==> p.name != q.name
    ensures IsFirst(ps + [q], q.name, q)
  {
    assert (ps + [q])[|ps|] == q;
    assert forall j :: 0 <= j < |ps| ==> (ps + [q])[j] == ps[j] && ps[j] in ps;
  }

  /** A name is known exactly when a package carries it, and the first one that does is
      kept. */
  lemma {:induction false} FirstOfNameIsKept(ps: seq<Pkg>, name: string)
    requires name != ""
    ensures name in Built(ps).packages <==> exists p :: p in ps && p.name == name
    ensures name in Built(ps).packages ==> IsFirst(ps, name, Built(ps).packages[name])
  {
    hide Register, IsFirst;
    if ps != [] {
      var init, last := ps[..|ps| - 1], ps[|ps| - 1];
      FirstOfNameIsKept(init, name);
      assert ps == init + [last];
      if name in Built(init).packages {
        FirstStays(init, name, Built(init).packages[name], last);
      } else if last.name == name {
        NewFirst(init, last);
      }
    }
  }

  /** p offers the capability v. */
  predicate Offers(p: Pkg, caps: seq<string>, v: string) {
    v != "" && exists c :: c in caps && Strip(c) == v
  }

  lemma {:induction false} RegisterAdds(m: map<string, seq<Pkg>>, p: Pkg, caps: seq<string>, v: string, q: Pkg)
    ensures q in ProvidersOf(Register(m, p, caps), v) <==> q in ProvidersOf(m, v) || (q == p && Offers(p, caps, v))
    decreases |caps|
  {
    hide Strip;
    if caps != [] {
      var init, last := caps[..|caps| - 1], caps[|caps| - 1];
      RegisterAdds(m, p, init, v, q);
      assert caps == init + [last];
      assert Offers(p, caps, v) <==> Offers(p, init, v) || (v != "" && Strip(last) == v);
    }
  }

  /** The providers of a capability are exactly the packages, winning or not, that offer
      it. */
  lemma {:induction false} ProvidersAreExact(ps: seq<Pkg>, v: string, q: Pkg)
    ensures q in ProvidersOf(Built(ps).providers, v) <==> q in ps && q.name != "" && Offers(q, q.provided, v)
  {
    hide Strip, Offers, Register;
    if ps != [] {
      var init, last := ps[..|ps| - 1], ps[|ps| - 1];
      ProvidersAreExact(init, v, q);
      RegisterAdds(Built(init).providers, last, last.provided, v, q);
      assert ps == init + [last];
    }
  }

  // ---- the graph of names -------------------------------------------------------

  /** Conflicts and file paths are not followed. */
  predicate Follows(dep: string) {
    dep == "" || (dep[0] != '!' && dep[0] != '/')
  }

  function Resolve(ix: Index, name: string): (t: Option<Pkg>)
  {
    if name in ix.packages then Some(ix.packages[name])
    else
      var ps := ProvidersOf(ix.providers, name);
      if |ps| > 0 then Some(ps[0]) else None
  }

  function Requests(deps: seq<string>): seq<string> {
    if deps == [] then []
    else
      var init, last := deps[..|deps| - 1], deps[|deps| - 1];
      Requests(init) + (if Follows(last) then [Strip(last)] else [])
  }

  lemma {:induction false} RequestsAre(deps: seq<string>)
    ensures forall n :: n in Requests(deps) <==> exists d :: d in deps && Follows(d) && Strip(d) == n
  {
    hide Strip;
    if deps != [] {
      RequestsAre(deps[..|deps| - 1]);
      assert deps == deps[..|deps| - 1] + [deps[|deps| - 1]];
    }
  }

  function Seeds(names: seq<string>): seq<string> {
    if names == [] then [] else Seeds(names[..|names| - 1]) + [Strip(names[|names| - 1])]
  }

  lemma {:induction false} SeedsUpTo(names: seq<string>, i: nat)
    requires i < |names|
    ensures |Seeds(names)| == |names| && Seeds(names)[..i + 1] == Seeds(names)[..i] + [Strip(names[i])]
    decreases |names|
  {
    hide Strip;
    var init := names[..|names| - 1];
    if init != [] {
      SeedsUpTo(init, if i < |init| then i else |init| - 1);
    }
  }

  function Next(ix: Index, name: string): seq<string> {
    var t := Resolve(ix, name);
    if t.Some? then Requests(t.value.depends) else []
  }

  ghost function Universe(ix: Index, roots: seq<string>): set<string> {
    (set k, d | k in ix.packages && d in ix.packages[k].depends :: Strip(d))
    + (set v, p, d | v in ix.providers && p in ix.providers[v] && d in p.depends :: Strip(d))
    + (set r | r in roots)
  }

  ghost function GraphOf(ix: Index, roots: seq<string>): Graph<string> {
    map n | n in Universe(ix, roots) :: Next(ix, n)
  }

  lemma NextInUniverse(ix: Index, roots: seq<string>, n: string, d: string)
    requires d in Next(ix, n)
    ensures d in Universe(ix, roots)
  {
    hide Strip;
    RequestsAre(Resolve(ix, n).value.depends);
    var p := Resolve(ix, n).value;
    var r :| r in p.depends && Strip(r) == d;
    if n !in ix.packages {
      assert p in ix.providers[n];
    }
  }

  lemma GraphIsClosed(ix: Index, roots: seq<string>)
    ensures Closed(GraphOf(ix, roots))
    ensures forall n :: n in GraphOf(ix, roots) ==> GraphOf(ix, roots)[n] == Next(ix, n)
    ensures forall r :: r in roots ==> r in GraphOf(ix, roots)
  {
    forall n, d | n in Universe(ix, roots) && d in Next(ix, n)
      ensures d in Universe(ix, roots)
    {
      NextInUniverse(ix, roots, n, d);
    }
    hide Next, Strip;
  }

  // ---- what the search hands back -------------------------------------------------

  function Emits(ix: Index): string -> Option<Pkg> {
    n => Resolve(ix, n)
  }

  ghost predicate Reachable(ix: Index, names: seq<string>, n: string) {
    exists r :: r in Seeds(names) && Reaches(GraphOf(ix, Seeds(names)), r, n)
  }

  ghost function Finished(ix: Index, names: seq<string>): seq<string> {
    GraphIsClosed(ix, Seeds(names));
    Run(GraphOf(ix, Seeds(names)), Seeds(names)).done
  }

  ghost function InstallList(ix: Index, names: seq<string>): seq<Pkg> {
    Collect(Finished(ix, names), Emits(ix))
  }

  /** A package is listed exactly when a reachable name stands for it, and every
      reachable name is resolved exactly once. */
  lemma InstallListIsExact(ix: Index, names: seq<string>, p: Pkg)
    ensures p in InstallList(ix, names) <==> exists n :: Reachable(ix, names, n) && Resolve(ix, n) == Some(p)
    ensures Distinct(Finished(ix, names)) && forall n :: n in Finished(ix, names) <==> Reachable(ix, names, n)
  {
    hide GraphOf, Seeds, Resolve;
    GraphIsClosed(ix, Seeds(names));
    RunIsExact(GraphOf(ix, Seeds(names)), Seeds(names));
    CollectIsExact(Finished(ix, names), Emits(ix), p);
    assert forall n :: Emits(ix)(n) == Resolve(ix, n);
    assert forall n :: n in Finished(ix, names) <==> Reachable(ix, names, n);
  }

  // ---- which names are reached -----------------------------------------------------

  /** The package p depends on n: neither a conflict nor a file. */
  ghost predicate Depends(p: Pkg, n: string) {
    exists d :: d in p.depends && (d == "" || (d[0] != '!' && d[0] != '/')) && Strip(d) == n
  }

  /** p is the package of this name, or, if there is none, its first provider. */
  predicate StandsFor(ix: Index, p: Pkg, n: string) {
    if n in ix.packages then p == ix.packages[n]
    else n in ix.providers && |ix.providers[n]| > 0 && p == ix.providers[n][0]
  }

  lemma ResolvedStands(ix: Index, n: string, p: Pkg)
    ensures Resolve(ix, n) == Some(p) <==> StandsFor(ix, p, n)
  {
  }

  /** A name is asked for exactly when it is a seed, or a dependency of the package that a
      name asked for before stands for. */
  lemma ReachedExactly(ix: Index, names: seq<string>, n: string)
    ensures Reachable(ix, names, n) <==>
      n in Seeds(names) || exists m, p :: Reachable(ix, names, m) && StandsFor(ix, p, m) && Depends(p, n)
  {
    hide Reachable, Seeds, StandsFor, Depends;
    if n in Seeds(names) {
      SeedIsReached(ix, names, n);
    } else if Reachable(ix, names, n) {
      var m, p := Asker(ix, names, n);
    }
    forall m, p | Reachable(ix, names, m) && StandsFor(ix, p, m) && Depends(p, n)
      ensures Reachable(ix, names, n)
    {
      AskedIsReached(ix, names, m, p, n);
    }
  }

  lemma SeedIsReached(ix: Index, names: seq<string>, n: string)
    requires n in Seeds(names)
    ensures Reachable(ix, names, n)
  {
    GraphIsClosed(ix, Seeds(names));
    hide GraphOf, Seeds;
    ReachesSelf(GraphOf(ix, Seeds(names)), n);
  }

  lemma NextAreDepends(ix: Index, m: string, n: string)
    ensures n in Next(ix, m) <==> exists p :: StandsFor(ix, p, m) && Depends(p, n)
  {
    hide Strip;
    var t := Resolve(ix, m);
    forall p
      ensures t == Some(p) <==> StandsFor(ix, p, m)
    {
      ResolvedStands(ix, m, p);
    }
    if t.Some? {
      RequestsAre(t.value.depends);
      assert Depends(t.value, n) <==> n in Requests(t.value.depends);
    }
    hide Resolve, StandsFor, Depends, Requests;
  }

  lemma AskedIsReached(ix: Index, names: seq<string>, m: string, p: Pkg, n: string)
    requires Reachable(ix, names, m) && StandsFor(ix, p, m) && Depends(p, n)
    ensures Reachable(ix, names, n)
  {
    var g, roots := GraphOf(ix, Seeds(names)), Seeds(names);
    GraphIsClosed(ix, roots);
    NextAreDepends(ix, m, n);
    hide GraphOf, Seeds, Next, StandsFor, Depends;
    var r :| r in roots && Reaches(g, r, m);
    var path :| Connects(g, path, r, m);
    ReachesStep(g, r, m, n);
  }

  lemma Asker(ix: Index, names: seq<string>, n: string) returns (m: string, p: Pkg)
    requires Reachable(ix, names, n) && n !in Seeds(names)
    ensures Reachable(ix, names, m) && StandsFor(ix, p, m) && Depends(p, n)
  {
    var g, roots := GraphOf(ix, Seeds(names)), Seeds(names);
    GraphIsClosed(ix, roots);
    hide GraphOf, Seeds, Next, StandsFor, Depends;
    var r :| r in roots && Reaches(g, r, n);
    m := LastStepTo(g, r, n);
    NextAreDepends(ix, m, n);
    p :| StandsFor(ix, p, m) && Depends(p, n);
  }

  /** Every dependency of a listed package has the package it stands for listed too,
      unless neither a package nor a provider carries the name. */
  lemma RequirementsAreSettled(ix: Index, names: seq<string>, p: Pkg, n: string)
    requires p in InstallList(ix, names) && Depends(p, n)
    ensures (exists q :: StandsFor(ix, q, n) && q in InstallList(ix, names))
         || (n !in ix.packages && (n !in ix.providers || ix.providers[n] == []))
  {
    InstallListIsExact(ix, names, p);
    hide InstallList, Reachable, Depends;
    var m :| Reachable(ix, names, m) && Resolve(ix, m) == Some(p);
    ResolvedStands(ix, m, p);
    ReachedExactly(ix, names, n);
    if Resolve(ix, n).Some? {
      var q := Resolve(ix, n).value;
      ResolvedStands(ix, n, q);
      InstallListIsExact(ix, names, q);
    }
  }

  /** A package is listed once for every reachable name that stands for it, so
      twice when both its name and a virtual name it provides are asked for. */
  lemma ListedOncePerName(ix: Index, names: seq<string>, p: Pkg)
    ensures multiset(InstallList(ix, names))[p] == |Emitters(Finished(ix, names), Emits(ix), p)|
  {
    hide Resolve, GraphOf, Seeds;
    InstallListIsExact(ix, names, p);
    CollectCounts(Finished(ix, names), Emits(ix), p);
  }

  /** Along any chain of names the far end's listing stands before the listing made for
      the name the chain starts from, unless something on the chain leads back. */
  lemma InstallListIsOrdered(ix: Index, names: seq<string>, path: seq<string>)
    requires IsPath(GraphOf(ix, Seeds(names)), path) && |path| > 1 && Reachable(ix, names, path[0])
    requires Resolve(ix, path[0]).Some? && Resolve(ix, path[|path| - 1]).Some?
    ensures ListedBefore(Finished(ix, names), Emits(ix), path[|path| - 1], path[0])
         || exists i :: 0 < i < |path| && Reaches(GraphOf(ix, Seeds(names)), path[i], path[0])
  {
    var g, roots := GraphOf(ix, Seeds(names)), Seeds(names);
    GraphIsClosed(ix, roots);
    RunIsExact(g, roots);
    hide GraphOf, Seeds, Resolve;
    RunListsInOrder(g, roots, Emits(ix), path);
  }

  /** Everything that a name on no cycle reaches is listed before it. */
  lemma InstallListIsTopological(ix: Index, names: seq<string>, u: string, v: string)
    requires OffCycle(GraphOf(ix, Seeds(names)), u) && Reachable(ix, names, u)
    requires Reaches(GraphOf(ix, Seeds(names)), u, v) && u != v && Resolve(ix, u).Some? && Resolve(ix, v).Some?
    ensures ListedBefore(Finished(ix, names), Emits(ix), v, u)
  {
    var g, roots := GraphOf(ix, Seeds(names)), Seeds(names);
    GraphIsClosed(ix, roots);
    RunIsExact(g, roots);
    hide GraphOf, Seeds, Resolve;
    RunListsTopologically(g, roots, Emits(ix), u, v);
  }

  /** A dependency that is followed and resolves. */
  predicate DependsOn(ix: Index, p: Pkg, dep: string) {
    dep in p.depends && Follows(dep) && Resolve(ix, Strip(dep)).Some?
  }

  /** It is listed before the listing made for the name asking for it, unless it leads
      back to that name. */
  lemma DependencyComesFirst(ix: Index, names: seq<string>, n: string, dep: string)
    requires Reachable(ix, names, n) && Resolve(ix, n).Some? && DependsOn(ix, Resolve(ix, n).value, dep)
    ensures ListedBefore(Finished(ix, names), Emits(ix), Strip(dep), n)
         || Reaches(GraphOf(ix, Seeds(names)), Strip(dep), n)
  {
    var g, roots := GraphOf(ix, Seeds(names)), Seeds(names);
    DependencyIsEdge(ix, names, n, dep);
    GraphIsClosed(ix, roots);
    RunIsExact(g, roots);
    hide Strip, Seeds, Resolve, GraphOf, DependsOn, Reaches, ListedBefore, Closed;
    RunListsEdge(g, roots, Emits(ix), n, Strip(dep));
  }

  /** Every single listing, the first of its package or a later one, was made for some
      reachable name, and the package's dependencies stand before it, each unless it
      leads back to that name, which then lies on a cycle. */
  lemma EveryListingIsOrdered(ix: Index, names: seq<string>, m: nat) returns (n: string)
    requires m < |InstallList(ix, names)|
    ensures Reachable(ix, names, n) && Resolve(ix, n) == Some(InstallList(ix, names)[m])
    ensures forall dep :: DependsOn(ix, InstallList(ix, names)[m], dep) ==>
      StandsBefore(InstallList(ix, names), Resolve(ix, Strip(dep)).value, m)
      || (Reaches(GraphOf(ix, Seeds(names)), Strip(dep), n) && !OffCycle(GraphOf(ix, Seeds(names)), n))
  {
    var done := Finished(ix, names);
    InstallListIsExact(ix, names, InstallList(ix, names)[m]);
    assert forall k :: Emits(ix)(k) == Resolve(ix, k);
    hide Finished, Resolve, GraphOf, Seeds, Reachable, DependsOn, Emits, Strip;
    var i := PlacedBySome(done, m, Emits(ix));
    n := done[i];
    PlaceHolds(done, i, Emits(ix));
    forall dep | DependsOn(ix, InstallList(ix, names)[m], dep)
      ensures StandsBefore(InstallList(ix, names), Resolve(ix, Strip(dep)).value, m)
           || (Reaches(GraphOf(ix, Seeds(names)), Strip(dep), n) && !OffCycle(GraphOf(ix, Seeds(names)), n))
    {
      DependencyComesFirst(ix, names, n, dep);
      if ListedBefore(done, Emits(ix), Strip(dep), n) {
        ListedBeforePlace(done, Emits(ix), Strip(dep), i);
      } else {
        DependencyIsEdge(ix, names, n, dep);
      }
    }
  }

  lemma DependencyIsEdge(ix: Index, names: seq<string>, n: string, dep: string)
    requires Reachable(ix, names, n) && Resolve(ix, n).Some? && DependsOn(ix, Resolve(ix, n).value, dep)
    ensures var g := GraphOf(ix, Seeds(names)); n in g && Strip(dep) in g[n]
  {
    hide Strip, Seeds;
    var g, roots := GraphOf(ix, Seeds(names)), Seeds(names);
    GraphIsClosed(ix, roots);
    RequestsAre(Resolve(ix, n).value.depends);
    assert Strip(dep) in Next(ix, n);
    hide GraphOf, Resolve, Requests, Next;
    var r :| r in roots && Reaches(g, r, n);
    var path :| Connects(g, path, r, n);
  }

  // ---- the visitor -----------------------------------------------------------------

  class DepVisitor {
    const ix: Index
    ghost const roots: seq<string>
    var seen: set<string>
    var out: seq<Pkg>
    ghost var p: Progress<string>

    ghost predicate Valid()
      reads this
    {
      seen == p.seen <= GraphOf(ix, roots).Keys && out == Collect(p.done, Emits(ix))
    }

    constructor (ix: Index, ghost roots: seq<string>)
      ensures Valid() && p == Start() && this.ix == ix && this.roots == roots
    {
      this.ix, this.roots := ix, roots;
      seen, out, p := {}, [], Start();
    }

    ghost function AfterAll(ns: seq<string>, q: Progress<string>): (t: Progress<string>)
      requires forall n :: n in ns ==> n in GraphOf(ix, roots)
      ensures q.seen <= t.seen
    {
      GraphIsClosed(ix, roots);
      VisitAll(GraphOf(ix, roots), ns, q)
    }

    ghost method Finish(n: string, out0: seq<Pkg>)
      requires p.seen <= GraphOf(ix, roots).Keys && seen == p.seen
      requires out0 == Collect(p.done, Emits(ix))
      requires out == out0 + (if Emits(ix)(n).Some? then [Emits(ix)(n).value] else [])
      modifies this`p
      ensures Valid() && p == old(p).(done := old(p).done + [n])
    {
      hide GraphOf, Collect, Resolve;
      CollectSnoc(p.done, n, Emits(ix));
      p := p.(done := p.done + [n]);
    }

    method Visit(n0: string)
      requires Valid() && Strip(n0) in GraphOf(ix, roots)
      modifies this`seen, this`out, this`p
      ensures Valid() && p == AfterAll([Strip(n0)], old(p))
      decreases GraphOf(ix, roots).Keys - p.seen, 0
    {
      hide GraphOf, Strip, Collect, Requests, Resolve;
      var n := Strip(n0);
      GraphIsClosed(ix, roots);
      VisitOne(GraphOf(ix, roots), n, p);
      if n in seen {
        return;
      }
      seen := seen + {n};
      p := p.(seen := p.seen + {n});
      ghost var marked := p;
      var pkg := Resolve(ix, n);
      if pkg.None? {
        assert p == AfterAll(Next(ix, n), marked);
        Finish(n, out);
        return;
      }
      NextInGraph(n);
      VisitEach(pkg.value.depends);
      ghost var out0 := out;
      out := out + [pkg.value];
      Finish(n, out0);
    }

    lemma NextInGraph(n: string)
      ensures forall d :: d in Next(ix, n) ==> d in GraphOf(ix, roots)
    {
      forall d | d in Next(ix, n)
        ensures d in GraphOf(ix, roots)
      {
        NextInUniverse(ix, roots, n, d);
      }
      hide Next, Universe;
    }

    method VisitEach(deps: seq<string>)
      requires Valid() && forall n :: n in Requests(deps) ==> n in GraphOf(ix, roots)
      modifies this`seen, this`out, this`p
      ensures Valid() && p == AfterAll(Requests(deps), old(p))
      decreases GraphOf(ix, roots).Keys - p.seen, 1
    {
      hide GraphOf, Collect, Strip, Resolve, Requests;
      GraphIsClosed(ix, roots);
      NoRequests(deps);
      var i := 0;
      while i < |deps|
        invariant 0 <= i <= |deps| && Valid() && old(p).seen <= p.seen
        invariant forall n :: n in Requests(deps[..i]) ==> n in GraphOf(ix, roots)
        invariant p == AfterAll(Requests(deps[..i]), old(p))
      {
        RequestsUpTo(deps, i);
        var d := deps[i];
        i := i + 1;
        if d != "" && d[0] == '!' {
          continue;
        }
        if d != "" && d[0] == '/' {
          continue;
        }
        VisitAllAppend(GraphOf(ix, roots), Requests(deps[..i - 1]), [Strip(d)], old(p));
        Visit(d);
      }
      assert deps[..i] == deps;
    }
  }

  lemma NoRequests(deps: seq<string>)
    ensures Requests(deps[..0]) == []
  {
  }

  lemma RequestsUpTo(deps: seq<string>, i: nat)
    requires i < |deps|
    ensures Requests(deps[..i + 1]) == if Follows(deps[i]) then Requests(deps[..i]) + [Strip(deps[i])] else Requests(deps[..i])
    ensures Follows(deps[i]) ==> Strip(deps[i]) in Requests(deps)
  {
    hide Strip;
    RequestsAre(deps);
    assert deps[..i + 1][..i] == deps[..i];
  }

  lemma SeedsHaveLength(names: seq<string>)
    ensures |Seeds(names)| == |names|
  {
    if names != [] {
      SeedsUpTo(names, 0);
    }
  }

  method ResolveDeps(ix: Index, names: seq<string>) returns (out: seq<Pkg>)
    ensures out == InstallList(ix, names)
  {
    hide GraphOf, Collect, Strip, Resolve, Seeds;
    ghost var roots := Seeds(names);
    SeedsHaveLength(names);
    GraphIsClosed(ix, roots);
    var visitor := new DepVisitor(ix, roots);
    var i := 0;
    while i < |names|
      invariant 0 <= i <= |names| && visitor.Valid()
      invariant visitor.p == visitor.AfterAll(roots[..i], Start())
    {
      SeedsUpTo(names, i);
      assert roots[..i + 1][i] == Strip(names[i]) == roots[i];
      VisitAllAppend(GraphOf(ix, roots), roots[..i], [Strip(names[i])], Start());
      visitor.Visit(names[i]);
      i := i + 1;
    }
    assert roots[..i] == roots;
    return visitor.out;
  }
}
