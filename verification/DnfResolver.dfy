/** Transitive resolution over the dnf index: hard and weak dependencies, rich
    (boolean) dependencies, capabilities already satisfied, virtual providers. */
module DnfResolver {
  import opened Text
  import opened DnfIndex
  import opened Dfs

  // ---- rich dependencies ----------------------------------------------------

  predicate IsBoolean(name: string) {
    var n := Trim(name);
    n != "" && n[0] == '('
  }

  function Flatten(s: string): (r: string)
    ensures |r| == |s| && forall i :: 0 <= i < |r| ==> r[i] != '(' && r[i] != ')' && r[i] != ','
  {
    seq(|s|, i requires 0 <= i < |s| => if s[i] == '(' || s[i] == ')' || s[i] == ',' then ' ' else s[i])
  }

  /** Length of the longest prefix without white space. */
  function WordLen(s: string): (n: nat)
    ensures n <= |s| && forall i :: 0 <= i < n ==> !IsSpace(s[i])
    ensures s != "" && !IsSpace(s[0]) ==> n > 0
  {
    if s == "" || IsSpace(s[0]) then 0 else 1 + WordLen(s[1..])
  }

  predicate IsWord(t: string) {
    t != "" && forall i :: 0 <= i < |t| ==> !IsSpace(t[i])
  }

  /** `strings.Fields`. */
  function Fields(s: string): (r: seq<string>)
    ensures forall t :: t in r ==> IsWord(t)
    decreases |s|
  {
    var u := TrimLeft(s);
    if u == "" then [] else [u[..WordLen(u)]] + Fields(u[WordLen(u)..])
  }

  const OPERATORS: set<string> := {">=", "<=", "=", ">", "<", "=="}
  const KEYWORDS: set<string> := {"and", "or", "if", "else", "unless", "with", "without", "then"}

  predicate IsOperator(tok: string) { tok in OPERATORS }

  predicate IsKeyword(tok: string) { Lower(tok) in KEYWORDS }

  predicate HasPrefix(s: string, prefix: string) {
    prefix <= s
  }

  /** The tokens kept: operators and the operand after them, keywords, and rpmlib
      features are dropped. */
  function KeepTokens(toks: seq<string>, skipNext: bool): (r: seq<string>)
    ensures forall t :: t in r ==> t in toks
  {
    if toks == [] then []
    else if skipNext then KeepTokens(toks[1..], false)
    else if IsOperator(toks[0]) then KeepTokens(toks[1..], true)
    else if IsKeyword(toks[0]) || HasPrefix(toks[0], "rpmlib(") then KeepTokens(toks[1..], false)
    else [toks[0]] + KeepTokens(toks[1..], false)
  }

  /** The inside of the outermost parentheses, punctuation turned into blanks. */
  function Inner(name: string): string
    requires IsBoolean(name)
  {
    var body := Trim(name)[1..];
    Flatten(if body != "" && body[|body| - 1] == ')' then body[..|body| - 1] else body)
  }

  function Expand(name: string): seq<string> {
    if IsBoolean(name) then KeepTokens(Fields(Inner(name)), false) else []
  }

  lemma KeepNext(toks: seq<string>, i: nat, skipNext: bool)
    requires i < |toks|
    ensures var tok := toks[i];
      KeepTokens(toks[i..], skipNext) ==
        if skipNext then KeepTokens(toks[i + 1..], false)
        else if IsOperator(tok) then KeepTokens(toks[i + 1..], true)
        else if IsKeyword(tok) || HasPrefix(tok, "rpmlib(") then KeepTokens(toks[i + 1..], false)
        else [tok] + KeepTokens(toks[i + 1..], false)
  {
    hide IsOperator, IsKeyword, HasPrefix;
    assert toks[i..][1..] == toks[i + 1..];
  }

  method ExpandBooleanDep(name: string) returns (result: seq<string>)
    ensures result == Expand(name)
  {
    result := [];
    if !IsBoolean(name) {
      return;
    }
    var toks := Fields(Inner(name));
    hide Fields, Inner, HasPrefix, IsOperator, IsKeyword, IsBoolean, KeepTokens;
    var skipNext := false;
    var i := 0;
    assert toks[0..] == toks;
    NoneKept();
    while i < |toks|
      invariant 0 <= i <= |toks|
      invariant KeepTokens(toks, false) == result + KeepTokens(toks[i..], skipNext)
    {
      var tok := toks[i];
      KeepNext(toks, i, skipNext);
      i := i + 1;
      if skipNext {
        skipNext := false;
        continue;
      }
      if IsOperator(tok) {
        skipNext := true;
        continue;
      }
      if IsKeyword(tok) {
        continue;
      }
      if HasPrefix(tok, "rpmlib(") {
        continue;
      }
      TakeOver(result, tok, KeepTokens(toks[i..], false));
      result := result + [tok];
    }
    assert toks[i..] == [];
  }

  lemma NoneKept()
    ensures KeepTokens([], false) == [] && KeepTokens([], true) == []
  {
  }

  /** Token i is the operand of an operator before it. */
  predicate IsOperand(toks: seq<string>, i: nat)
    requires i < |toks|
  {
    i > 0 && IsOperator(toks[i - 1]) && !IsOperand(toks, i - 1)
  }

  /** Token i is a name asked for: neither operator nor operand, no keyword, and no rpmlib
      feature. */
  predicate IsAskedFor(toks: seq<string>, i: nat)
    requires i < |toks|
  {
    !IsOperand(toks, i) && !IsOperator(toks[i]) && !IsKeyword(toks[i]) && !HasPrefix(toks[i], "rpmlib(")
  }

  function AskedFor(toks: seq<string>, n: nat): seq<string>
    requires n <= |toks|
  {
    if n == 0 then [] else AskedFor(toks, n - 1) + (if IsAskedFor(toks, n - 1) then [toks[n - 1]] else [])
  }

  /** The tokens kept are the names asked for, in order, each as often as it stands there. */
  lemma KeptAreAskedFor(toks: seq<string>)
    ensures KeepTokens(toks, false) == AskedFor(toks, |toks|)
  {
    KeptFrom(toks, 0);
    assert toks[0..] == toks && [] + KeepTokens(toks, false) == KeepTokens(toks, false);
    hide *;
  }

  lemma {:induction false} KeptFrom(toks: seq<string>, i: nat)
    requires i <= |toks|
    ensures AskedFor(toks, |toks|) == AskedFor(toks, i) + KeepTokens(toks[i..], i < |toks| && IsOperand(toks, i))
    decreases |toks| - i
  {
    hide IsOperator, IsKeyword, HasPrefix, KeepTokens;
    NoneKept();
    if i == |toks| {
      assert toks[i..] == [];
    } else {
      KeptFrom(toks, i + 1);
      KeepNext(toks, i, IsOperand(toks, i));
      if i + 1 == |toks| {
        assert toks[i + 1..] == [];
      }
      if IsAskedFor(toks, i) {
        TakeOver(AskedFor(toks, i), toks[i], KeepTokens(toks[i + 1..], i + 1 < |toks| && IsOperand(toks, i + 1)));
      }
    }
  }

  /** The words of rich dependencies that are no names; the keywords in capitals too. */
  lemma OperatorsAndKeywords(t: string)
    ensures IsOperator(t) <==> t == ">=" || t == "<=" || t == "=" || t == ">" || t == "<" || t == "=="
    ensures t == "and" || t == "or" || t == "if" || t == "else" || t == "unless" || t == "with" || t == "without" || t == "then"
      ==> IsKeyword(t)
    ensures t == "AND" || t == "OR" || t == "IF" ==> IsKeyword(t)
  {
    LowerIsLower(t);
    assert t == "AND" ==> Lower(t) == "and";
    assert t == "OR" ==> Lower(t) == "or";
    assert t == "IF" ==> Lower(t) == "if";
    hide Lower;
  }

  lemma LowerIsLower(s: string)
    ensures (forall i :: 0 <= i < |s| ==> 'a' <= s[i] <= 'z') ==> Lower(s) == s
  {
  }

  lemma {:induction false} FieldsKeepOut(s: string, c: char)
    requires c !in s
    ensures forall t :: t in Fields(s) ==> c !in t
    decreases |s|
  {
    var u := TrimLeft(s);
    TrimLeftKeepsOut(s, c);
    if u != "" {
      FieldsKeepOut(u[WordLen(u)..], c);
    }
  }

  /** Expanded tokens are plain names: no blanks, no parentheses, no commas, so they are
      never rich dependencies themselves and stripping leaves them alone. */
  lemma TokensArePlain(name: string, t: string)
    requires t in Expand(name)
    ensures IsWord(t) && '(' !in t && ')' !in t && ',' !in t && !IsBoolean(t) && Strip(t) == t
  {
    var inner := Inner(name);
    assert '(' !in inner && ')' !in inner && ',' !in inner;
    hide Inner, Fields, KeepTokens, IsBoolean, Strip;
    FieldsKeepOut(inner, '(');
    FieldsKeepOut(inner, ')');
    FieldsKeepOut(inner, ',');
    assert t in Fields(inner) && IsWord(t);
    WordIsPlain(t);
  }

  /** The filter on rpmlib features never applies: the parenthesis it looks for has been
      turned into a blank before. */
  lemma NoTokenIsRpmlib(name: string, t: string)
    requires IsBoolean(name) && t in Fields(Inner(name))
    ensures !HasPrefix(t, "rpmlib(")
  {
    var inner := Inner(name);
    assert '(' !in inner;
    FieldsKeepOut(inner, '(');
    PrefixHolds(t, "rpmlib(", 6);
    hide *;
  }

  lemma PrefixHolds(s: string, prefix: string, i: nat)
    requires i < |prefix|
    ensures HasPrefix(s, prefix) ==> prefix[i] in s
  {
  }

  /** A feature named in a rich dependency is asked for by its bare name. */
  lemma RpmlibIsExpanded()
    ensures Expand("(rpmlib(X))") == ["rpmlib", "X"]
  {
    RpmlibIsRich();
    RpmlibFields();
    NotDropped("rpmlib");
    NotDropped("X");
    BothKept("rpmlib", "X");
    hide Fields, Inner, IsBoolean, KeepTokens, HasPrefix, IsOperator, IsKeyword;
  }

  lemma RpmlibIsRich()
    ensures IsBoolean("(rpmlib(X))") && Inner("(rpmlib(X))") == "rpmlib X "
  {
    TrimOfTrimmed("(rpmlib(X))");
  }

  lemma BothKept(t: string, u: string)
    requires !IsOperator(t) && !IsKeyword(t) && !HasPrefix(t, "rpmlib(")
    requires !IsOperator(u) && !IsKeyword(u) && !HasPrefix(u, "rpmlib(")
    ensures KeepTokens([t, u], false) == [t, u]
  {
    assert [t, u][1..] == [u] && [u][1..] == [];
    assert KeepTokens([u], false) == [u] + KeepTokens([], false);
  }

  lemma NotDropped(t: string)
    requires t != "" && (t[0] == 'r' || t[0] == 'X')
    requires |t| < 7
    ensures !IsOperator(t) && !IsKeyword(t) && !HasPrefix(t, "rpmlib(")
  {
    var l := Lower(t)[0];
    assert l == 'r' || l == 'x';
  }

  lemma RpmlibFields()
    ensures Fields("rpmlib X ") == ["rpmlib", "X"]
  {
    hide Fields;
    assert "rpmlib" + " " + "X " == "rpmlib X " && "X" + " " + "" == "X ";
    FirstField("rpmlib", "X ");
    FirstField("X", "");
    NoFields();
  }

  lemma NoFields()
    ensures Fields("") == []
  {
  }

  lemma FirstField(t: string, rest: string)
    requires IsWord(t)
    ensures Fields(t + " " + rest) == [t] + Fields(rest)
  {
    var s := t + " " + rest;
    WordLenOf(t, " " + rest);
    assert t + (" " + rest) == s;
    assert TrimLeft(s) == s;
    assert s[|t|..] == " " + rest;
    assert TrimLeft(" " + rest) == TrimLeft(rest);
  }

  lemma OnlyField(t: string)
    requires IsWord(t)
    ensures Fields(t) == [t]
  {
    WordLenIs(t);
    assert TrimLeft(t) == t && t[..|t|] == t && t[|t|..] == "";
    NoFields();
  }

  lemma {:induction false} WordLenIs(t: string)
    requires forall i :: 0 <= i < |t| ==> !IsSpace(t[i])
    ensures WordLen(t) == |t|
  {
    if t != "" {
      WordLenIs(t[1..]);
    }
  }

  lemma {:induction false} WordsAreFields(ws: seq<string>)
    requires ws != [] && forall w :: w in ws ==> IsWord(w)
    ensures Fields(Join(ws, ' ')) == ws
  {
    hide Fields, IsWord;
    if |ws| == 1 {
      OnlyField(ws[0]);
    } else {
      WordsAreFields(ws[1..]);
      FirstField(ws[0], Join(ws[1..], ' '));
      assert ws[0] + " " + Join(ws[1..], ' ') == Join(ws, ' ');
      assert [ws[0]] + ws[1..] == ws;
    }
  }

  /** A word of a rich dependency, without the characters that end one. */
  predicate IsToken(t: string) {
    IsWord(t) && '(' !in t && ')' !in t && ',' !in t
  }

  /** A rich dependency of words is expanded to the names asked for among them. */
  lemma WordsAreExpanded(ws: seq<string>)
    requires ws != [] && forall w :: w in ws ==> IsToken(w)
    ensures Expand("(" + Join(ws, ' ') + ")") == AskedFor(ws, |ws|)
  {
    var s := Join(ws, ' ');
    WordsAreFields(ws);
    InsideIs(ws);
    KeptAreAskedFor(ws);
    hide Fields, Inner, KeepTokens, AskedFor, IsToken, IsBoolean, Join;
  }

  lemma InsideIs(ws: seq<string>)
    requires ws != [] && forall w :: w in ws ==> IsToken(w)
    ensures var name := "(" + Join(ws, ' ') + ")"; IsBoolean(name) && Inner(name) == Join(ws, ' ')
  {
    var s := Join(ws, ' ');
    var name := "(" + s + ")";
    JoinHoldsNone(ws, '(');
    JoinHoldsNone(ws, ')');
    JoinHoldsNone(ws, ',');
    hide Join, IsToken;
    TrimOfTrimmed(name);
    assert name[1..] == s + ")" && (s + ")")[..|s|] == s;
    assert Flatten(s) == s;
  }

  lemma {:induction false} JoinHoldsNone(ws: seq<string>, c: char)
    requires ws != [] && c != ' ' && forall w :: w in ws ==> c !in w
    ensures c !in Join(ws, ' ')
  {
    assert ws[0] in ws;
    if |ws| > 1 {
      JoinHoldsNone(ws[1..], c);
    }
  }

  lemma {:induction false} WordLenOf(t: string, rest: string)
    requires (forall i :: 0 <= i < |t| ==> !IsSpace(t[i])) && rest != "" && IsSpace(rest[0])
    ensures WordLen(t + rest) == |t|
    decreases |t|
  {
    if t == "" {
      assert "" + rest == rest;
    } else {
      assert (t + rest)[1..] == t[1..] + rest;
      WordLenOf(t[1..], rest);
    }
  }

  lemma WordIsPlain(t: string)
    requires IsWord(t) && '(' !in t
    ensures !IsBoolean(t) && Strip(t) == t
  {
    TrimOfTrimmed(t);
    assert ' ' !in t;
    BeforeNothing(t, ' ');
  }

  // ---- the graph of requests -------------------------------------------------

  /** What the resolver reads: the index, the host architecture, the installed
      package names and the capabilities they provide. */
  datatype World = World(ix: Index, host: string, installed: set<string>, satisfied: set<string>)

  function PickProvider(host: string, ps: seq<Pkg>): (r: Pkg)
    requires |ps| > 0
    ensures r in ps
    ensures (exists p :: p in ps && p.arch == host) ==> r.arch == host
    ensures r.arch != host && (exists p :: p in ps && p.arch == NOARCH) ==> r.arch == NOARCH
  {
    var h := FirstOfArch(ps, host);
    var n := FirstOfArch(ps, NOARCH);
    if h.Some? then h.value else if n.Some? then n.value else ps[0]
  }

  function FirstOfArch(ps: seq<Pkg>, arch: string): (r: Option<Pkg>)
    ensures r.Some? <==> exists p :: p in ps && p.arch == arch
    ensures r.Some? ==> r.value in ps && r.value.arch == arch
  {
    if ps == [] then None
    else if ps[0].arch == arch then Some(ps[0])
    else FirstOfArch(ps[1..], arch)
  }

  datatype Target = Rich | Satisfied | Package(pkg: Pkg) | Virtual(provider: Pkg) | Missing

  function Resolve(w: World, name: string): (t: Target)
    ensures t.Package? ==> name in w.ix.packages && t.pkg == w.ix.packages[name]
  {
    if IsBoolean(name) then Rich
    else if name in w.installed || name in w.satisfied then Satisfied
    else if name in w.ix.packages then Package(w.ix.packages[name])
    else
      var ps := ProvidersOf(w.ix.providers, name);
      if |ps| > 0 then Virtual(PickProvider(w.host, ps)) else Missing
  }

  /** Neither a rich dependency nor on the system. */
  predicate Wanted(w: World, n: string) {
    !IsBoolean(n) && n !in w.installed && n !in w.satisfied
  }

  /** p is the provider taken for n: of the host's architecture if there is one, else noarch
      if there is one. */
  ghost predicate Chosen(w: World, n: string, p: Pkg) {
    && p in ProvidersOf(w.ix.providers, n)
    && (forall q :: q in w.ix.providers[n] && q.arch == w.host ==> p.arch == w.host)
    && (forall q :: q in w.ix.providers[n] && q.arch == NOARCH ==> p.arch == w.host || p.arch == NOARCH)
  }

  /** What a name comes down to. */
  lemma TargetsAre(w: World, n: string)
    ensures Resolve(w, n).Rich? <==> IsBoolean(n)
    ensures Resolve(w, n).Satisfied? <==> !IsBoolean(n) && (n in w.installed || n in w.satisfied)
    ensures forall p :: Resolve(w, n) == Package(p) <==> Wanted(w, n) && n in w.ix.packages && p == w.ix.packages[n]
    ensures Resolve(w, n).Virtual? <==> Wanted(w, n) && n !in w.ix.packages && ProvidersOf(w.ix.providers, n) != []
    ensures Resolve(w, n).Virtual? ==> Chosen(w, n, Resolve(w, n).provider)
    ensures Resolve(w, n).Missing? <==> Wanted(w, n) && n !in w.ix.packages && ProvidersOf(w.ix.providers, n) == []
  {
    hide IsBoolean;
  }

  /** Requests as visited: stripped, empty ones ignored. */
  function Requests(names: seq<string>): (r: seq<string>)
    ensures forall n :: n in r <==> n != "" && exists d :: d in names && Strip(d) == n
  {
    hide Strip;
    if names == [] then []
    else
      var init, last := names[..|names| - 1], Strip(names[|names| - 1]);
      assert names == init + [names[|names| - 1]];
      Requests(init) + (if last != "" then [last] else [])
  }

  function Next(w: World, name: string): seq<string> {
    match Resolve(w, name)
    case Rich => Requests(Expand(name))
    case Satisfied => []
    case Package(p) => Requests(p.needs) + Requests(p.recommends)
    case Virtual(p) => Requests([p.name])
    case Missing => []
  }

  ghost function Asked(w: World, roots: seq<string>): set<string> {
    (set k, d | k in w.ix.packages && d in w.ix.packages[k].needs :: Strip(d))
    + (set k, d | k in w.ix.packages && d in w.ix.packages[k].recommends :: Strip(d))
    + (set v, p | v in w.ix.providers && p in w.ix.providers[v] :: Strip(p.name))
    + (set r | r in roots)
  }

  /** Every name that could be asked for, and every token of a rich dependency
      among them. */
  ghost function Universe(w: World, roots: seq<string>): set<string> {
    Asked(w, roots) + (set b, t | b in Asked(w, roots) && t in Expand(b) :: t)
  }

  ghost function GraphOf(w: World, roots: seq<string>): Graph<string> {
    map n | n in Universe(w, roots) :: Next(w, n)
  }

  lemma GraphIsClosed(w: World, roots: seq<string>)
    ensures Closed(GraphOf(w, roots))
  {
    forall n, d | n in Universe(w, roots) && d in Next(w, n)
      ensures d in Universe(w, roots)
    {
      SuccessorInUniverse(w, roots, n, d);
    }
    hide Next, Universe;
  }

  lemma SuccessorInUniverse(w: World, roots: seq<string>, n: string, d: string)
    requires n in Universe(w, roots) && d in Next(w, n)
    ensures d in Universe(w, roots)
  {
    hide Strip, Expand, IsBoolean;
    match Resolve(w, n)
    case Rich =>
      RichIsAsked(w, roots, n);
      var t :| t in Expand(n) && Strip(t) == d;
      TokensArePlain(n, t);
    case Package(p) =>
      var r :| (r in p.needs || r in p.recommends) && Strip(r) == d;
    case Virtual(p) =>
      assert p in w.ix.providers[n];
    case _ =>
  }

  lemma RichIsAsked(w: World, roots: seq<string>, n: string)
    requires n in Universe(w, roots) && IsBoolean(n)
    ensures n in Asked(w, roots)
  {
    hide Asked, Expand, IsBoolean;
    if n !in Asked(w, roots) {
      var b :| b in Asked(w, roots) && n in Expand(b);
      TokensArePlain(b, n);
    }
  }

  // ---- what the search hands back --------------------------------------------

  function Emits(w: World): string -> Option<Pkg> {
    n => var t := Resolve(w, n); if t.Package? then Some(t.pkg) else None
  }

  ghost predicate Reachable(w: World, seeds: seq<string>, n: string) {
    exists r :: r in Requests(seeds) && Reaches(GraphOf(w, Requests(seeds)), r, n)
  }

  ghost function Finished(w: World, seeds: seq<string>): seq<string> {
    GraphIsClosed(w, Requests(seeds));
    Run(GraphOf(w, Requests(seeds)), Requests(seeds)).done
  }

  ghost function InstallList(w: World, seeds: seq<string>): seq<Pkg> {
    Collect(Finished(w, seeds), Emits(w))
  }

  lemma FinishedIsReachable(w: World, seeds: seq<string>)
    ensures Distinct(Finished(w, seeds))
    ensures forall n :: n in Finished(w, seeds) <==> Reachable(w, seeds, n)
  {
    GraphIsClosed(w, Requests(seeds));
    RunIsExact(GraphOf(w, Requests(seeds)), Requests(seeds));
    hide GraphOf, Requests;
  }

  /** The install list holds exactly the packages that a reachable, unsatisfied
      name stands for. */
  lemma InstallListIsExact(w: World, seeds: seq<string>, p: Pkg)
    ensures p in InstallList(w, seeds) <==> exists n :: Reachable(w, seeds, n) && Resolve(w, n) == Package(p)
    ensures p in InstallList(w, seeds) <==> exists n ::
      Reachable(w, seeds, n) && Wanted(w, n) && n in w.ix.packages && p == w.ix.packages[n]
  {
    FinishedIsReachable(w, seeds);
    CollectIsExact(Finished(w, seeds), Emits(w), p);
    hide Finished, Reachable, Resolve, Wanted;
    forall n
      ensures Resolve(w, n) == Package(p) <==> Wanted(w, n) && n in w.ix.packages && p == w.ix.packages[n]
    {
      TargetsAre(w, n);
    }
  }

  /** No two listed packages share a name, and none of the names is installed or
      already satisfied. */
  lemma InstalledNamesAreDistinct(w: World, seeds: seq<string>)
    requires Coherent(w.ix)
    ensures var list := InstallList(w, seeds);
      && (forall i, j :: 0 <= i < j < |list| ==> list[i].name != list[j].name)
      && (forall i :: 0 <= i < |list| ==> list[i].name !in w.installed && list[i].name !in w.satisfied)
  {
    FinishedIsReachable(w, seeds);
    hide Finished, Collect, Emits, Coherent, Reachable;
    CollectedNames(w, Finished(w, seeds));
    assert forall i :: 0 <= i < |InstallList(w, seeds)| ==> InstallList(w, seeds)[i] in InstallList(w, seeds);
  }

  lemma EmittedName(w: World, n: string)
    requires Coherent(w.ix) && Emits(w)(n).Some?
    ensures Emits(w)(n).value.name == n && n !in w.installed && n !in w.satisfied
  {
    hide IsBoolean, ProvidersOf, PickProvider;
  }

  lemma {:induction false} CollectedNames(w: World, done: seq<string>)
    requires Coherent(w.ix) && Distinct(done)
    ensures var list := Collect(done, Emits(w));
      && (forall i, j :: 0 <= i < j < |list| ==> list[i].name != list[j].name)
      && (forall p :: p in list ==> p.name in done && p.name !in w.installed && p.name !in w.satisfied)
  {
    hide Coherent, Collect, Emits;
    if done == [] {
      NothingCollected(Emits(w));
    } else {
      var init, n := done[..|done| - 1], done[|done| - 1];
      CollectedNames(w, init);
      assert done == init + [n];
      CollectSnoc(init, n, Emits(w));
      if Emits(w)(n).Some? {
        EmittedName(w, n);
      }
    }
  }

  /** Every known package has a name, one that stripping leaves alone and that is no
      rich dependency. */
  ghost predicate NamesArePlain(ix: Index) {
    forall k :: k in ix.packages ==> k != "" && Strip(k) == k && !IsBoolean(k)
  }

  /** Already on the system, or listed. */
  ghost predicate Present(w: World, seeds: seq<string>, n: string) {
    n in w.installed || n in w.satisfied
    || (n in w.ix.packages && w.ix.packages[n] in InstallList(w, seeds))
  }

  /** The name itself is present, or it is a capability whose chosen provider is. */
  ghost predicate Served(w: World, seeds: seq<string>, n: string) {
    if Wanted(w, n) && n !in w.ix.packages then exists p :: Chosen(w, n, p) && Present(w, seeds, p.name)
    else Present(w, seeds, n)
  }

  /** In neither index map. */
  predicate Absent(w: World, n: string) {
    n !in w.ix.packages && |ProvidersOf(w.ix.providers, n)| == 0
  }

  /** How a requirement ends up: served, in neither index, or a rich dependency each of
      whose tokens is served or in neither index. */
  ghost predicate Settled(w: World, seeds: seq<string>, n: string) {
    if IsBoolean(n) then forall t :: t in Expand(n) ==> Served(w, seeds, t) || Absent(w, t)
    else Served(w, seeds, n) || Absent(w, n)
  }

  lemma SuccessorIsReachable(w: World, seeds: seq<string>, n: string, d: string)
    requires Reachable(w, seeds, n) && d in Next(w, n)
    ensures Reachable(w, seeds, d)
  {
    var g, roots := GraphOf(w, Requests(seeds)), Requests(seeds);
    GraphIsClosed(w, roots);
    hide Requests, Next, Universe;
    var s :| s in roots && Reaches(g, s, n);
    var path :| Connects(g, path, s, n);
    ReachesStep(g, s, n, d);
  }

  /** A reachable package name that is not on the system is listed. */
  lemma ReachableIsPresent(w: World, seeds: seq<string>, n: string)
    requires Reachable(w, seeds, n) && !IsBoolean(n) && n in w.ix.packages
    ensures Present(w, seeds, n)
  {
    hide Reachable, InstallList, IsBoolean;
    if Resolve(w, n).Package? {
      InstallListIsExact(w, seeds, Resolve(w, n).pkg);
    }
  }

  lemma ProviderIsPresent(w: World, seeds: seq<string>, n: string)
    requires Coherent(w.ix) && NamesArePlain(w.ix) && Reachable(w, seeds, n) && Resolve(w, n).Virtual?
    ensures Present(w, seeds, Resolve(w, n).provider.name)
  {
    hide Reachable, InstallList, IsBoolean, Strip, PickProvider, Present;
    var p := Resolve(w, n).provider;
    assert p in w.ix.providers[n];
    assert p.name in w.ix.packages;
    RequestOne(p.name);
    assert p.name in Next(w, n);
    SuccessorIsReachable(w, seeds, n, p.name);
    ReachableIsPresent(w, seeds, p.name);
  }

  lemma ReachableIsServed(w: World, seeds: seq<string>, n: string)
    requires Coherent(w.ix) && NamesArePlain(w.ix) && Reachable(w, seeds, n) && !IsBoolean(n)
    ensures Served(w, seeds, n) || Absent(w, n)
  {
    TargetsAre(w, n);
    if Resolve(w, n).Virtual? {
      ProviderIsPresent(w, seeds, n);
    } else if Resolve(w, n).Package? {
      ReachableIsPresent(w, seeds, n);
    }
    hide Reachable, InstallList, IsBoolean, Resolve, Chosen;
  }

  lemma ReachableIsSettled(w: World, seeds: seq<string>, n: string)
    requires Coherent(w.ix) && NamesArePlain(w.ix) && Reachable(w, seeds, n)
    ensures Settled(w, seeds, n)
  {
    hide Reachable, Served, Absent, IsBoolean, Expand, Strip, ProvidersOf;
    if IsBoolean(n) {
      forall t | t in Expand(n)
        ensures Served(w, seeds, t) || Absent(w, t)
      {
        TokensArePlain(n, t);
        assert t in Requests(Expand(n));
        SuccessorIsReachable(w, seeds, n, t);
        ReachableIsServed(w, seeds, t);
      }
    } else {
      ReachableIsServed(w, seeds, n);
    }
  }

  /** Every requirement of a listed package is settled: the names a capability or a rich
      dependency is reduced to are themselves on the system, listed, or unknown. */
  lemma RequirementsAreSettled(w: World, seeds: seq<string>, p: Pkg, r: string)
    requires Coherent(w.ix) && NamesArePlain(w.ix)
    requires p in InstallList(w, seeds) && r in p.needs && Strip(r) != ""
    ensures Settled(w, seeds, Strip(r))
  {
    RequirementIsReachable(w, seeds, p, r);
    hide *;
    ReachableIsSettled(w, seeds, Strip(r));
  }

  lemma RequirementIsReachable(w: World, seeds: seq<string>, p: Pkg, r: string)
    requires p in InstallList(w, seeds) && r in p.needs && Strip(r) != ""
    ensures Reachable(w, seeds, Strip(r))
  {
    hide Strip, InstallList, Reachable, Resolve;
    InstallListIsExact(w, seeds, p);
    var n :| Reachable(w, seeds, n) && Resolve(w, n) == Package(p);
    assert Strip(r) in Requests(p.needs);
    hide Requests;
    assert Strip(r) in Next(w, n);
    SuccessorIsReachable(w, seeds, n, Strip(r));
  }

  /** What a listed package requires or recommends is asked for, and so are the names in a
      rich dependency that is. */
  lemma DependenciesAreReached(w: World, seeds: seq<string>, p: Pkg, r: string, t: string)
    requires p in InstallList(w, seeds) && (r in p.needs || r in p.recommends) && Strip(r) != ""
    ensures Reachable(w, seeds, Strip(r))
    ensures IsBoolean(Strip(r)) && t in Expand(Strip(r)) ==> Reachable(w, seeds, t)
  {
    hide Strip, InstallList, Reachable, Resolve, Expand, IsBoolean;
    InstallListIsExact(w, seeds, p);
    var n :| Reachable(w, seeds, n) && Resolve(w, n) == Package(p);
    assert Strip(r) in Requests(p.needs) || Strip(r) in Requests(p.recommends);
    assert Strip(r) in Next(w, n);
    SuccessorIsReachable(w, seeds, n, Strip(r));
    if IsBoolean(Strip(r)) && t in Expand(Strip(r)) {
      TokenIsReachable(w, seeds, Strip(r), t);
    }
  }

  lemma TokenIsReachable(w: World, seeds: seq<string>, n: string, t: string)
    requires Reachable(w, seeds, n) && IsBoolean(n) && t in Expand(n)
    ensures Reachable(w, seeds, t)
  {
    TokensArePlain(n, t);
    hide Reachable, Expand, IsBoolean, Strip;
    assert t in Requests(Expand(n));
    assert t in Next(w, n);
    SuccessorIsReachable(w, seeds, n, t);
  }

  // ---- the order of the list -------------------------------------------------------

  /** Along any chain of requests the far end's listing stands before the listing the
      chain starts from, unless something on the chain leads back. */
  lemma InstallListIsOrdered(w: World, seeds: seq<string>, path: seq<string>)
    requires IsPath(GraphOf(w, Requests(seeds)), path) && |path| > 1 && Reachable(w, seeds, path[0])
    requires Emits(w)(path[0]).Some? && Emits(w)(path[|path| - 1]).Some?
    ensures ListedBefore(Finished(w, seeds), Emits(w), path[|path| - 1], path[0])
         || exists i :: 0 < i < |path| && Reaches(GraphOf(w, Requests(seeds)), path[i], path[0])
  {
    var g, roots := GraphOf(w, Requests(seeds)), Requests(seeds);
    GraphIsClosed(w, roots);
    FinishedIsReachable(w, seeds);
    RootsInGraph(w, seeds);
    hide GraphOf, Requests, Resolve;
    RunListsInOrder(g, roots, Emits(w), path);
  }

  /** Everything that a name on no cycle reaches is listed before it. */
  lemma InstallListIsTopological(w: World, seeds: seq<string>, u: string, v: string)
    requires OffCycle(GraphOf(w, Requests(seeds)), u) && Reachable(w, seeds, u)
    requires Reaches(GraphOf(w, Requests(seeds)), u, v) && u != v && Emits(w)(u).Some? && Emits(w)(v).Some?
    ensures ListedBefore(Finished(w, seeds), Emits(w), v, u)
  {
    var g, roots := GraphOf(w, Requests(seeds)), Requests(seeds);
    GraphIsClosed(w, roots);
    FinishedIsReachable(w, seeds);
    RootsInGraph(w, seeds);
    hide GraphOf, Requests, Resolve;
    RunListsTopologically(g, roots, Emits(w), u, v);
  }

  /** v is a requirement or recommendation of u's package, taken directly or through one
      capability d. */
  predicate DependsOn(w: World, u: string, d: string, v: string) {
    d in Next(w, u) && (v == d || (Resolve(w, d).Virtual? && Next(w, d) == [v]))
  }

  lemma DirectComesFirst(w: World, seeds: seq<string>, u: string, d: string)
    requires Reachable(w, seeds, u) && d in Next(w, u) && Emits(w)(u).Some? && Emits(w)(d).Some?
    ensures ListedBefore(Finished(w, seeds), Emits(w), d, u) || Reaches(GraphOf(w, Requests(seeds)), d, u)
  {
    EdgeInGraph(w, seeds, u, d);
    SearchFacts(w, seeds);
    hide Requests, GraphOf, Reachable, Emits, Next, ListedBefore, Reaches, Closed;
    RunListsEdge(GraphOf(w, Requests(seeds)), Requests(seeds), Emits(w), u, d);
  }

  lemma IndirectComesFirst(w: World, seeds: seq<string>, u: string, d: string, v: string)
    requires Reachable(w, seeds, u) && d in Next(w, u) && Next(w, d) == [v] && Emits(w)(u).Some? && Emits(w)(v).Some?
    requires d != u
    ensures ListedBefore(Finished(w, seeds), Emits(w), v, u) || Reaches(GraphOf(w, Requests(seeds)), v, u)
  {
    assert v in Next(w, d);
    hide Next;
    SuccessorIsReachable(w, seeds, u, d);
    EdgeInGraph(w, seeds, u, d);
    EdgeInGraph(w, seeds, d, v);
    SearchFacts(w, seeds);
    hide Requests, GraphOf, Reachable, Emits, ListedBefore, Reaches, Closed;
    RunListsTwoEdges(GraphOf(w, Requests(seeds)), Requests(seeds), Emits(w), u, d, v);
  }

  lemma SearchFacts(w: World, seeds: seq<string>)
    ensures Closed(GraphOf(w, Requests(seeds)))
    ensures forall r :: r in Requests(seeds) ==> r in GraphOf(w, Requests(seeds))
    ensures Finished(w, seeds) == Run(GraphOf(w, Requests(seeds)), Requests(seeds)).done
    ensures forall n :: n in Finished(w, seeds) <==> Reachable(w, seeds, n)
  {
    GraphIsClosed(w, Requests(seeds));
    RootsInGraph(w, seeds);
    FinishedIsReachable(w, seeds);
    hide GraphOf, Requests, Reachable, Closed;
  }

  /** A dependency, direct or through a capability, is listed before the package asking
      for it unless it leads back to it. */
  lemma DependencyComesFirst(w: World, seeds: seq<string>, u: string, d: string, v: string)
    requires Reachable(w, seeds, u) && DependsOn(w, u, d, v) && Emits(w)(u).Some? && Emits(w)(v).Some?
    ensures ListedBefore(Finished(w, seeds), Emits(w), v, u) || Reaches(GraphOf(w, Requests(seeds)), v, u)
  {
    hide Finished, Reachable, GraphOf, Requests, Next, IsBoolean, ProvidersOf, Emits, Resolve;
    if v == d {
      DirectComesFirst(w, seeds, u, d);
    } else {
      VirtualEmitsNothing(w, d);
      IndirectComesFirst(w, seeds, u, d, v);
    }
  }

  lemma VirtualEmitsNothing(w: World, d: string)
    ensures Resolve(w, d).Virtual? ==> Emits(w)(d).None?
  {
    hide Resolve;
  }

  lemma EdgeInGraph(w: World, seeds: seq<string>, u: string, d: string)
    requires Reachable(w, seeds, u) && d in Next(w, u)
    ensures var g := GraphOf(w, Requests(seeds)); u in g && d in g && g[u] == Next(w, u)
  {
    hide Requests, Next, Universe;
    var roots := Requests(seeds);
    var g := GraphOf(w, roots);
    var r :| r in roots && Reaches(g, r, u);
    var path :| Connects(g, path, r, u);
    GraphNext(w, roots, u);
  }

  // ---- what is on the system is not walked ------------------------------------------

  /** The name m makes the program ask for n: as a name in a rich dependency, as something
      its package requires or recommends, or as the name of a capability's provider. What is
      on the system asks for nothing. */
  ghost predicate AsksFor(w: World, m: string, n: string) {
    if IsBoolean(m) then n in Expand(m)
    else if !Wanted(w, m) || n == "" then false
    else if m in w.ix.packages then exists d :: (d in w.ix.packages[m].needs || d in w.ix.packages[m].recommends) && Strip(d) == n
    else Resolve(w, m).Virtual? && Strip(Resolve(w, m).provider.name) == n
  }

  lemma TokensAsk(m: string, n: string)
    ensures n in Requests(Expand(m)) <==> n in Expand(m)
  {
    hide Strip, Expand, IsBoolean;
    forall t | t in Expand(m)
      ensures t != "" && Strip(t) == t
    {
      TokensArePlain(m, t);
    }
  }

  lemma NextAreAsked(w: World, m: string, n: string)
    ensures n in Next(w, m) <==> AsksFor(w, m, n)
  {
    TargetsAre(w, m);
    TokensAsk(m, n);
    hide Resolve, IsBoolean, Expand, Strip, Chosen, ProvidersOf;
    if Resolve(w, m).Virtual? {
      RequestOne(Resolve(w, m).provider.name);
      hide Requests;
    }
  }

  /** A name is reached exactly when it is asked for by a seed, or by a reachable name: what
      only installed packages require is not reached. */
  lemma ReachedExactly(w: World, seeds: seq<string>, n: string)
    ensures Reachable(w, seeds, n) <==> n in Requests(seeds) || exists m :: Reachable(w, seeds, m) && AsksFor(w, m, n)
  {
    hide Reachable, Requests, AsksFor;
    if n in Requests(seeds) {
      SeedIsReachable(w, seeds, n);
    } else if Reachable(w, seeds, n) {
      var m := Asker(w, seeds, n);
      NextAreAsked(w, m, n);
    }
    forall m | Reachable(w, seeds, m) && AsksFor(w, m, n)
      ensures Reachable(w, seeds, n)
    {
      NextAreAsked(w, m, n);
      SuccessorIsReachable(w, seeds, m, n);
    }
  }

  lemma SeedIsReachable(w: World, seeds: seq<string>, n: string)
    requires n in Requests(seeds)
    ensures Reachable(w, seeds, n)
  {
    RootsInGraph(w, seeds);
    hide GraphOf, Requests;
    ReachesSelf(GraphOf(w, Requests(seeds)), n);
  }

  lemma Asker(w: World, seeds: seq<string>, n: string) returns (m: string)
    requires Reachable(w, seeds, n) && n !in Requests(seeds)
    ensures Reachable(w, seeds, m) && n in Next(w, m)
  {
    var g, roots := GraphOf(w, Requests(seeds)), Requests(seeds);
    hide GraphOf, Requests, Next;
    var r :| r in roots && Reaches(g, r, n);
    m := LastStepTo(g, r, n);
    GraphNext(w, roots, m);
  }

  // ---- requests in visiting order ----------------------------------------------------

  /** One call of the visitor for a name; soft when it need not be found. */
  datatype Ask = Ask(name: string, soft: bool)

  function AskEach(ns: seq<string>, soft: bool): (r: seq<Ask>)
    ensures |r| == |ns| && forall i :: 0 <= i < |r| ==> r[i] == Ask(ns[i], soft)
  {
    seq(|ns|, i requires 0 <= i < |ns| => Ask(ns[i], soft))
  }

  function Asks(names: seq<string>, soft: bool): seq<Ask> {
    AskEach(Requests(names), soft)
  }

  /** The calls a first visit makes: tokens and recommendations softly, requirements
      hard, a provider as the capability was asked for. */
  function Follow(w: World, a: Ask): seq<Ask> {
    match Resolve(w, a.name)
    case Rich => Asks(Expand(a.name), true)
    case Satisfied => []
    case Package(p) => Asks(p.needs, false) + Asks(p.recommends, true)
    case Virtual(p) => Asks([p.name], a.soft)
    case Missing => []
  }

  /** The names visited so far, and every call made so far, in order. */
  datatype Log = Log(seen: set<string>, asks: seq<Ask>)

  function After(l: Log, a: Ask): Log {
    Log(l.seen + {a.name}, l.asks + [a])
  }

  ghost predicate CanAsk(w: World, roots: seq<string>, asks: seq<Ask>) {
    forall a :: a in asks ==> a.name in GraphOf(w, roots)
  }

  lemma FollowsNext(w: World, roots: seq<string>, a: Ask)
    requires a.name in GraphOf(w, roots)
    ensures |Follow(w, a)| == |Next(w, a.name)|
    ensures forall i :: 0 <= i < |Follow(w, a)| ==> Follow(w, a)[i].name == Next(w, a.name)[i]
    ensures CanAsk(w, roots, Follow(w, a))
  {
    GraphNext(w, roots, a.name);
    FollowNames(w, a);
    hide GraphOf, Next, Follow;
    forall b | b in Follow(w, a)
      ensures b.name in GraphOf(w, roots)
    {
      var i :| 0 <= i < |Follow(w, a)| && Follow(w, a)[i] == b;
      assert Next(w, a.name)[i] in Next(w, a.name);
    }
  }

  lemma FollowNames(w: World, a: Ask)
    ensures |Follow(w, a)| == |Next(w, a.name)|
    ensures forall i :: 0 <= i < |Follow(w, a)| ==> Follow(w, a)[i].name == Next(w, a.name)[i]
  {
    hide Requests, Expand, Resolve;
  }

  ghost function Walk(w: World, roots: seq<string>, a: Ask, l: Log): (r: Log)
    requires a.name in GraphOf(w, roots)
    ensures l.seen <= r.seen
    decreases GraphOf(w, roots).Keys - l.seen, 0
  {
    if a.name in l.seen then After(l, a)
    else
      FollowsNext(w, roots, a);
      WalkAll(w, roots, Follow(w, a), After(l, a))
  }

  ghost function WalkAll(w: World, roots: seq<string>, asks: seq<Ask>, l: Log): (r: Log)
    requires CanAsk(w, roots, asks)
    ensures l.seen <= r.seen
    decreases GraphOf(w, roots).Keys - l.seen, 1 + |asks|
  {
    if asks == [] then l
    else WalkAll(w, roots, asks[1..], Walk(w, roots, asks[0], l))
  }

  lemma {:induction false} WalkAllAppend(w: World, roots: seq<string>, a: seq<Ask>, b: seq<Ask>, l: Log)
    requires CanAsk(w, roots, a) && CanAsk(w, roots, b)
    ensures CanAsk(w, roots, a + b) && WalkAll(w, roots, a + b, l) == WalkAll(w, roots, b, WalkAll(w, roots, a, l))
    decreases |a|
  {
    hide GraphOf, Walk;
    if a == [] {
      assert [] + b == b;
    } else {
      assert (a + b)[1..] == a[1..] + b;
      WalkAllAppend(w, roots, a[1..], b, Walk(w, roots, a[0], l));
    }
  }

  lemma WalkOne(w: World, roots: seq<string>, a: Ask, l: Log)
    requires a.name in GraphOf(w, roots)
    ensures CanAsk(w, roots, [a]) && WalkAll(w, roots, [a], l) == Walk(w, roots, a, l)
  {
    hide GraphOf, Walk;
    assert [a][1..] == [];
  }

  predicate IsNamed(asks: seq<Ask>, n: string) {
    exists a :: a in asks && a.name == n
  }

  /** The names reported missing after these calls: each name's first call decides. */
  ghost function Reported(w: World, asks: seq<Ask>): seq<string> {
    if asks == [] then []
    else
      var init, a := asks[..|asks| - 1], asks[|asks| - 1];
      if !IsNamed(init, a.name) && !a.soft && Resolve(w, a.name).Missing? then Reported(w, init) + [a.name]
      else Reported(w, init)
  }

  lemma ReportedSnoc(w: World, asks: seq<Ask>, a: Ask)
    ensures Reported(w, asks + [a]) ==
      if !IsNamed(asks, a.name) && !a.soft && Resolve(w, a.name).Missing? then Reported(w, asks) + [a.name]
      else Reported(w, asks)
  {
    assert (asks + [a])[..|asks|] == asks;
    hide Resolve, IsNamed;
  }

  /** Some call for n is hard and no call for n comes before it. */
  ghost predicate FirstIsHard(asks: seq<Ask>, n: string) {
    exists i :: 0 <= i < |asks| && asks[i] == Ask(n, false) && !IsNamed(asks[..i], n)
  }

  lemma FirstIsHardSnoc(asks: seq<Ask>, a: Ask, n: string)
    ensures FirstIsHard(asks + [a], n) <==> FirstIsHard(asks, n) || (a == Ask(n, false) && !IsNamed(asks, n))
  {
    hide IsNamed;
    var all := asks + [a];
    assert all[..|asks|] == asks && all[|asks|] == a;
    assert forall i :: 0 <= i < |asks| ==> all[i] == asks[i] && all[..i] == asks[..i];
  }

  lemma {:induction false} ReportedExactly(w: World, asks: seq<Ask>, n: string)
    ensures n in Reported(w, asks) <==> Resolve(w, n).Missing? && FirstIsHard(asks, n)
    ensures n in Reported(w, asks) ==> IsNamed(asks, n)
    ensures Distinct(Reported(w, asks))
  {
    if asks != [] {
      hide Resolve, Distinct, FirstIsHard;
      var init, a := asks[..|asks| - 1], asks[|asks| - 1];
      assert asks == init + [a];
      ReportedExactly(w, init, n);
      ReportedExactly(w, init, a.name);
      FirstIsHardSnoc(init, a, n);
      DistinctSnoc(Reported(w, init), a.name);
    }
  }

  lemma DistinctSnoc(s: seq<string>, n: string)
    ensures Distinct(s) && n !in s ==> Distinct(s + [n])
  {
  }

  /** Every call made for the seeds, in order. */
  ghost function Trace(w: World, seeds: seq<string>): seq<Ask> {
    SeedsCanAsk(w, seeds);
    WalkAll(w, Requests(seeds), Asks(seeds, false), Log({}, [])).asks
  }

  lemma SeedsCanAsk(w: World, seeds: seq<string>)
    ensures CanAsk(w, Requests(seeds), Asks(seeds, false))
  {
    RootsInGraph(w, seeds);
    hide GraphOf, Requests;
  }

  ghost function UnresolvedList(w: World, seeds: seq<string>): seq<string> {
    Reported(w, Trace(w, seeds))
  }

  /** A name is reported exactly when it is missing and the first call for it, in
      visiting order, is hard; and then once. */
  lemma UnresolvedListIsExact(w: World, seeds: seq<string>, n: string)
    ensures n in UnresolvedList(w, seeds) <==> Resolve(w, n).Missing? && FirstIsHard(Trace(w, seeds), n)
    ensures Resolve(w, n).Missing? <==> Wanted(w, n) && Absent(w, n)
    ensures Distinct(UnresolvedList(w, seeds))
  {
    TargetsAre(w, n);
    hide Trace, Resolve;
    ReportedExactly(w, Trace(w, seeds), n);
  }

  // ---- where the calls come from -----------------------------------------------------

  /** The walk over the calls marks what the search marks. */
  lemma {:induction false} WalkSeen(w: World, roots: seq<string>, a: Ask, l: Log, p: Progress<string>)
    requires Closed(GraphOf(w, roots)) && a.name in GraphOf(w, roots) && l.seen == p.seen
    ensures Walk(w, roots, a, l).seen == Visit(GraphOf(w, roots), a.name, p).seen
    decreases GraphOf(w, roots).Keys - l.seen, 0
  {
    hide GraphOf;
    if a.name !in l.seen {
      FollowsNext(w, roots, a);
      GraphNext(w, roots, a.name);
      hide Next, Follow;
      WalkAllSeen(w, roots, Follow(w, a), Next(w, a.name), After(l, a), p.(seen := p.seen + {a.name}));
    }
  }

  lemma {:induction false} WalkAllSeen(w: World, roots: seq<string>, asks: seq<Ask>, ns: seq<string>, l: Log, p: Progress<string>)
    requires Closed(GraphOf(w, roots)) && CanAsk(w, roots, asks) && l.seen == p.seen
    requires |asks| == |ns| && forall i :: 0 <= i < |ns| ==> asks[i].name == ns[i]
    requires forall n :: n in ns ==> n in GraphOf(w, roots)
    ensures WalkAll(w, roots, asks, l).seen == VisitAll(GraphOf(w, roots), ns, p).seen
    decreases GraphOf(w, roots).Keys - l.seen, 1 + |asks|
  {
    hide GraphOf, Walk, Visit;
    if asks != [] {
      WalkSeen(w, roots, asks[0], l, p);
      WalkAllSeen(w, roots, asks[1..], ns[1..], Walk(w, roots, asks[0], l), Visit(GraphOf(w, roots), ns[0], p));
    }
  }

  /** The i-th call is the next one of a list whose earlier calls have been made. */
  ghost predicate From(list: seq<Ask>, asks: seq<Ask>, i: nat)
    requires i < |asks|
  {
    exists k :: 0 <= k < |list| && list[k] == asks[i] && MadeBefore(list[..k], asks, i)
  }

  predicate MadeBefore(list: seq<Ask>, asks: seq<Ask>, i: nat)
    requires i <= |asks|
  {
    forall b :: b in list ==> b in asks[..i]
  }

  predicate FirstAt(asks: seq<Ask>, j: nat) {
    j < |asks| && !IsNamed(asks[..j], asks[j].name)
  }

  /** The i-th call is made for the seeds or follows an earlier first call of its name. */
  ghost predicate JustifiedAt(w: World, start: seq<Ask>, asks: seq<Ask>, i: nat)
    requires i < |asks|
  {
    From(start, asks, i) || exists j :: 0 <= j < i && FirstAt(asks, j) && From(Follow(w, asks[j]), asks, i)
  }

  ghost predicate Justified(w: World, start: seq<Ask>, l: Log) {
    && (forall n :: n in l.seen <==> IsNamed(l.asks, n))
    && (forall i :: 0 <= i < |l.asks| ==> JustifiedAt(w, start, l.asks, i))
  }

  lemma JustifiedSnoc(w: World, start: seq<Ask>, l: Log, a: Ask)
    requires Justified(w, start, l) && JustifiedAt(w, start, l.asks + [a], |l.asks|)
    ensures Justified(w, start, After(l, a))
  {
    var asks := l.asks + [a];
    NamedSnoc(l.asks, a);
    forall i | 0 <= i < |asks|
      ensures JustifiedAt(w, start, asks, i)
    {
      if i < |l.asks| {
        JustifiedLater(w, start, l.asks, asks, i);
      }
    }
    hide JustifiedAt, IsNamed;
  }

  lemma FromLater(list: seq<Ask>, asks: seq<Ask>, more: seq<Ask>, i: nat)
    requires i < |asks| && asks <= more && From(list, asks, i)
    ensures From(list, more, i)
  {
    assert more[..i] == asks[..i] && more[i] == asks[i];
  }

  lemma FirstLater(asks: seq<Ask>, more: seq<Ask>, j: nat)
    requires asks <= more && FirstAt(asks, j)
    ensures FirstAt(more, j) && more[j] == asks[j]
  {
    assert more[..j] == asks[..j];
    hide IsNamed;
  }

  lemma JustifiedLater(w: World, start: seq<Ask>, asks: seq<Ask>, more: seq<Ask>, i: nat)
    requires i < |asks| && asks <= more && JustifiedAt(w, start, asks, i)
    ensures JustifiedAt(w, start, more, i)
  {
    hide Follow, FirstAt, From;
    if From(start, asks, i) {
      FromLater(start, asks, more, i);
    } else {
      var j :| 0 <= j < i && FirstAt(asks, j) && From(Follow(w, asks[j]), asks, i);
      FirstLater(asks, more, j);
      FromLater(Follow(w, asks[j]), asks, more, i);
    }
  }

  /** The list a pending call belongs to: the seeds, or what follows a first call. */
  ghost predicate Origin(w: World, start: seq<Ask>, asks: seq<Ask>, list: seq<Ask>) {
    list == start || exists j :: 0 <= j < |asks| && FirstAt(asks, j) && list == Follow(w, asks[j])
  }

  lemma OriginLater(w: World, start: seq<Ask>, asks: seq<Ask>, more: seq<Ask>, list: seq<Ask>)
    requires Origin(w, start, asks, list) && asks <= more
    ensures Origin(w, start, more, list)
  {
    hide Follow, FirstAt;
    if list != start {
      var j :| 0 <= j < |asks| && FirstAt(asks, j) && list == Follow(w, asks[j]);
      FirstLater(asks, more, j);
    }
  }

  /** The k-th call of a list is justified when those before it have been made. */
  lemma NextIsJustified(w: World, start: seq<Ask>, asks: seq<Ask>, list: seq<Ask>, k: nat)
    requires Origin(w, start, asks, list) && k < |list| && MadeBefore(list[..k], asks, |asks|)
    ensures JustifiedAt(w, start, asks + [list[k]], |asks|)
  {
    var more := asks + [list[k]];
    NextIsFrom(asks, list, k);
    hide Follow, FirstAt, From, MadeBefore;
    if list != start {
      var j :| 0 <= j < |asks| && FirstAt(asks, j) && list == Follow(w, asks[j]);
      FirstLater(asks, more, j);
    }
  }

  lemma NextIsFrom(asks: seq<Ask>, list: seq<Ask>, k: nat)
    requires k < |list| && MadeBefore(list[..k], asks, |asks|)
    ensures From(list, asks + [list[k]], |asks|)
  {
    assert (asks + [list[k]])[..|asks|] == asks == asks[..|asks|];
  }

  lemma {:induction false} WalkIsJustified(w: World, roots: seq<string>, start: seq<Ask>, list: seq<Ask>, k: nat, l: Log)
    requires k < |list| && list[k].name in GraphOf(w, roots) && Justified(w, start, l)
    requires Origin(w, start, l.asks, list) && MadeBefore(list[..k], l.asks, |l.asks|)
    ensures var r := Walk(w, roots, list[k], l); Justified(w, start, r) && l.asks + [list[k]] <= r.asks
    decreases GraphOf(w, roots).Keys - l.seen, 0
  {
    hide GraphOf, Follow, Origin, MadeBefore, JustifiedAt, IsNamed;
    var a := list[k];
    NextIsJustified(w, start, l.asks, list, k);
    JustifiedSnoc(w, start, l, a);
    if a.name !in l.seen {
      FollowsNext(w, roots, a);
      FirstIsOrigin(w, start, l.asks, a);
      NoneBefore(Follow(w, a), l.asks + [a]);
      WalkAllIsJustified(w, roots, start, Follow(w, a), 0, After(l, a));
      assert Follow(w, a)[0..] == Follow(w, a);
    }
  }

  lemma FirstIsOrigin(w: World, start: seq<Ask>, asks: seq<Ask>, a: Ask)
    requires !IsNamed(asks, a.name)
    ensures Origin(w, start, asks + [a], Follow(w, a))
  {
    hide Follow, IsNamed;
    assert (asks + [a])[..|asks|] == asks;
    assert FirstAt(asks + [a], |asks|);
  }

  lemma NoneBefore(list: seq<Ask>, asks: seq<Ask>)
    ensures MadeBefore(list[..0], asks, |asks|)
  {
  }

  lemma MadeLater(list: seq<Ask>, asks: seq<Ask>, more: seq<Ask>)
    requires MadeBefore(list, asks, |asks|) && asks <= more
    ensures MadeBefore(list, more, |more|)
  {
    assert asks[..|asks|] == asks && more[..|more|] == more;
  }

  lemma OneMoreMade(list: seq<Ask>, k: nat, asks: seq<Ask>)
    requires k < |list| && MadeBefore(list[..k], asks, |asks|)
    ensures MadeBefore(list[..k + 1], asks + [list[k]], |asks| + 1)
  {
    assert list[..k + 1] == list[..k] + [list[k]];
    assert asks[..|asks|] == asks && (asks + [list[k]])[..|asks| + 1] == asks + [list[k]];
  }

  lemma {:induction false} WalkAllIsJustified(w: World, roots: seq<string>, start: seq<Ask>, list: seq<Ask>, k: nat, l: Log)
    requires k <= |list| && CanAsk(w, roots, list[k..]) && Justified(w, start, l)
    requires Origin(w, start, l.asks, list) && MadeBefore(list[..k], l.asks, |l.asks|)
    ensures var r := WalkAll(w, roots, list[k..], l); Justified(w, start, r) && l.asks <= r.asks && MadeBefore(list, r.asks, |r.asks|)
    decreases GraphOf(w, roots).Keys - l.seen, 1 + |list| - k
  {
    hide GraphOf, Follow, Origin, MadeBefore, Justified, Walk;
    if k == |list| {
      assert list[..k] == list;
    } else {
      var a := list[k];
      assert list[k..][0] == a && list[k..][1..] == list[k + 1..];
      WalkIsJustified(w, roots, start, list, k, l);
      var r := Walk(w, roots, a, l);
      OneMoreMade(list, k, l.asks);
      MadeLater(list[..k + 1], l.asks + [a], r.asks);
      OriginLater(w, start, l.asks, r.asks, list);
      WalkAllIsJustified(w, roots, start, list, k + 1, r);
    }
  }

  /** Every call is made for a seed or follows an earlier first call of its name, after
      the calls before it in the same list. */
  lemma TraceIsJustified(w: World, seeds: seq<string>)
    ensures forall i :: 0 <= i < |Trace(w, seeds)| ==> JustifiedAt(w, Asks(seeds, false), Trace(w, seeds), i)
  {
    TraceLog(w, seeds);
    hide Trace, JustifiedAt;
  }

  lemma TraceLog(w: World, seeds: seq<string>)
    ensures CanAsk(w, Requests(seeds), Asks(seeds, false))
    ensures var r := WalkAll(w, Requests(seeds), Asks(seeds, false), Log({}, [])); r.asks == Trace(w, seeds) && Justified(w, Asks(seeds, false), r)
  {
    var start := Asks(seeds, false);
    SeedsCanAsk(w, seeds);
    NoneBefore(start, []);
    assert start[0..] == start;
    hide GraphOf, Requests, Asks, WalkAll, Follow;
    WalkAllIsJustified(w, Requests(seeds), start, start, 0, Log({}, []));
  }

  /** a makes the program ask for n without fail: its package requires n, or a is asked for
      without fail itself and n is its provider. */
  ghost predicate HardFor(w: World, a: Ask, n: string) {
    if !Wanted(w, a.name) || n == "" then false
    else if a.name in w.ix.packages then exists d :: d in w.ix.packages[a.name].needs && Strip(d) == n
    else !a.soft && Resolve(w, a.name).Virtual? && Strip(Resolve(w, a.name).provider.name) == n
  }

  /** a makes the program ask for n if it can be had: as a name in a rich dependency, as a
      recommendation, or as the provider of a name asked for this way. */
  ghost predicate SoftFor(w: World, a: Ask, n: string) {
    if IsBoolean(a.name) then n in Expand(a.name)
    else if !Wanted(w, a.name) || n == "" then false
    else if a.name in w.ix.packages then exists d :: d in w.ix.packages[a.name].recommends && Strip(d) == n
    else a.soft && Resolve(w, a.name).Virtual? && Strip(Resolve(w, a.name).provider.name) == n
  }

  lemma AsksOf(names: seq<string>, soft: bool, b: Ask)
    ensures b in Asks(names, soft) <==> b.soft == soft && b.name in Requests(names)
  {
    var rs := Requests(names);
    hide Requests;
    if b.soft == soft && b.name in rs {
      var i :| 0 <= i < |rs| && rs[i] == b.name;
      assert Asks(names, soft)[i] == b;
    }
  }

  lemma FollowIs(w: World, a: Ask, b: Ask)
    ensures b in Follow(w, a) <==> if b.soft then SoftFor(w, a, b.name) else HardFor(w, a, b.name)
  {
    TargetsAre(w, a.name);
    hide Resolve, IsBoolean, Expand, Strip, Chosen, ProvidersOf, Asks;
    match Resolve(w, a.name)
    case Rich =>
      TokensAsk(a.name, b.name);
      AsksOf(Expand(a.name), true, b);
    case Package(p) =>
      AsksOf(p.needs, false, b);
      AsksOf(p.recommends, true, b);
    case Virtual(p) =>
      AsksOf([p.name], a.soft, b);
      RequestOne(p.name);
    case _ =>
  }

  /** Every request but those of the seeds comes from an earlier one, as it asks. */
  lemma RequestsComeFrom(w: World, seeds: seq<string>, i: nat)
    requires i < |Trace(w, seeds)|
    ensures var b := Trace(w, seeds)[i];
      || (b.name in Requests(seeds) && !b.soft)
      || exists j :: 0 <= j < i && (if b.soft then SoftFor(w, Trace(w, seeds)[j], b.name) else HardFor(w, Trace(w, seeds)[j], b.name))
  {
    TraceIsJustified(w, seeds);
    var asks := Trace(w, seeds);
    hide Trace, SoftFor, HardFor, Follow, Asks, Requests;
    assert JustifiedAt(w, Asks(seeds, false), asks, i);
    AsksOf(seeds, false, asks[i]);
    if !From(Asks(seeds, false), asks, i) {
      var j :| 0 <= j < i && FirstAt(asks, j) && From(Follow(w, asks[j]), asks, i);
      FollowIs(w, asks[j], asks[i]);
    }
  }

  /** The calls name exactly the reachable names. */
  lemma TraceIsReachable(w: World, seeds: seq<string>, n: string)
    ensures IsNamed(Trace(w, seeds), n) <==> Reachable(w, seeds, n)
  {
    var roots := Requests(seeds);
    TraceLog(w, seeds);
    GraphIsClosed(w, roots);
    RootsInGraph(w, seeds);
    WalkAllSeen(w, roots, Asks(seeds, false), roots, Log({}, []), Start());
    RunKeeps(GraphOf(w, roots), roots);
    FinishedIsReachable(w, seeds);
    hide GraphOf, Requests, Reachable, WalkAll, VisitAll, IsNamed, JustifiedAt, OrderedAt;
  }

  /** A reachable missing name goes unreported only after some earlier first call that
      asks for it softly and never hard. */
  lemma MissedOnlySoftly(w: World, seeds: seq<string>, n: string)
    requires Reachable(w, seeds, n) && Resolve(w, n).Missing? && n !in UnresolvedList(w, seeds)
    ensures exists j :: 0 <= j < |Trace(w, seeds)| && FirstAt(Trace(w, seeds), j) && AsksOnlySoftly(w, Trace(w, seeds)[j], n)
  {
    hide Trace, Reachable, Resolve, Follow, Asks;
    var asks := Trace(w, seeds);
    TraceIsReachable(w, seeds, n);
    TraceIsJustified(w, seeds);
    UnresolvedListIsExact(w, seeds, n);
    var i := FirstCall(asks, n);
    assert asks[i] == Ask(n, true);
    assert JustifiedAt(w, Asks(seeds, false), asks, i);
    SeedsAreHard(seeds, asks, i);
    var j :| 0 <= j < i && FirstAt(asks, j) && From(Follow(w, asks[j]), asks, i);
    SoftOnly(w, asks[j], asks, i, n);
  }

  /** Hard calls are made before the soft ones of the same name. */
  lemma HardComeFirst(w: World, a: Ask, k: nat, m: nat)
    requires k < m < |Follow(w, a)| && Follow(w, a)[k].soft
    ensures Follow(w, a)[m].soft
  {
    hide Resolve, Requests, Expand;
  }

  lemma SoftOnly(w: World, a: Ask, asks: seq<Ask>, i: nat, n: string)
    requires i < |asks| && asks[i] == Ask(n, true) && !IsNamed(asks[..i], n) && From(Follow(w, a), asks, i)
    ensures AsksOnlySoftly(w, a, n)
  {
    var list := Follow(w, a);
    var k :| 0 <= k < |list| && list[k] == asks[i] && MadeBefore(list[..k], asks, i);
    hide Follow;
    forall m | 0 <= m < |list|
      ensures list[m] != Ask(n, false)
    {
      if m < k {
        assert list[..k][m] in list[..k];
      } else if m > k {
        HardComeFirst(w, a, k, m);
      }
    }
  }

  predicate AsksOnlySoftly(w: World, a: Ask, n: string) {
    Ask(n, true) in Follow(w, a) && Ask(n, false) !in Follow(w, a)
  }

  lemma SeedsAreHard(seeds: seq<string>, asks: seq<Ask>, i: nat)
    requires i < |asks|
    ensures From(Asks(seeds, false), asks, i) ==> !asks[i].soft
  {
    hide Requests;
  }

  lemma {:induction false} FirstCall(asks: seq<Ask>, n: string) returns (i: nat)
    requires IsNamed(asks, n)
    ensures i < |asks| && asks[i].name == n && !IsNamed(asks[..i], n)
  {
    var last := |asks| - 1;
    if IsNamed(asks[..last], n) {
      i := FirstCall(asks[..last], n);
      assert asks[..last][..i] == asks[..i];
    } else {
      i := last;
    }
  }

  // ---- a missing requirement that is not reported --------------------------------------

  /** One pending call made, those it leads to put in front of the others. */
  lemma WalkStep(w: World, roots: seq<string>, todo: seq<Ask>, l: Log, next: seq<Ask>)
    requires todo != [] && CanAsk(w, roots, todo)
    requires next == (if todo[0].name in l.seen then [] else Follow(w, todo[0])) + todo[1..]
    ensures CanAsk(w, roots, next) && WalkAll(w, roots, todo, l) == WalkAll(w, roots, next, After(l, todo[0]))
  {
    var a, rest := todo[0], todo[1..];
    FollowsNext(w, roots, a);
    hide GraphOf, Follow;
    if a.name in l.seen {
      assert next == rest;
    } else {
      WalkAllAppend(w, roots, Follow(w, a), rest, After(l, a));
    }
  }

  function Named(name: string, needs: seq<string>, recommends: seq<string>): Pkg {
    Pkg(name, NOARCH, "1", "1", "", name, needs, [], recommends)
  }

  /** Three names that stripping leaves alone. */
  datatype Names = Names(a: string, b: string, x: string) {
    predicate Valid() {
      Plain(a) && Plain(b) && Plain(x) && a != b && a != x && b != x
    }
  }

  predicate Plain(n: string) {
    IsWord(n) && '(' !in n
  }

  /** Two packages: a with these requirements, and b, which recommends the unknown x. */
  function TwoPackages(ns: Names, needs: seq<string>): World {
    World(Index(map[ns.a := Named(ns.a, needs, []), ns.b := Named(ns.b, [], [ns.x])], map[]), NOARCH, {}, {})
  }

  lemma TwoPackagesResolve(ns: Names, needs: seq<string>)
    requires ns.Valid()
    ensures Resolve(TwoPackages(ns, needs), ns.a) == Package(Named(ns.a, needs, []))
    ensures Resolve(TwoPackages(ns, needs), ns.b) == Package(Named(ns.b, [], [ns.x]))
    ensures Resolve(TwoPackages(ns, needs), ns.x) == Missing
  {
    var w := TwoPackages(ns, needs);
    PlainResolves(w, ns.a);
    PlainResolves(w, ns.b);
    PlainResolves(w, ns.x);
    hide Resolve, Named, Plain;
  }

  /** Nothing being installed, a plain name stands for its package, if there is one. */
  lemma PlainResolves(w: World, n: string)
    requires Plain(n) && w.installed == {} && w.satisfied == {} && w.ix.providers == map[]
    ensures Resolve(w, n) == if n in w.ix.packages then Package(w.ix.packages[n]) else Missing
  {
    WordIsPlain(n);
    hide Strip, IsBoolean;
  }

  lemma TwoPackagesFollow(ns: Names, needs: seq<string>, soft: bool)
    requires ns.Valid()
    ensures Follow(TwoPackages(ns, needs), Ask(ns.a, soft)) == Asks(needs, false)
    ensures Follow(TwoPackages(ns, needs), Ask(ns.b, soft)) == [Ask(ns.x, true)]
    ensures Follow(TwoPackages(ns, needs), Ask(ns.x, soft)) == []
  {
    var w := TwoPackages(ns, needs);
    TwoPackagesResolve(ns, needs);
    AskNone(true);
    AskNone(false);
    AskOne(ns.x, true);
    hide *;
    PackageFollow(w, Ask(ns.a, soft), ns.a, needs, []);
    PackageFollow(w, Ask(ns.b, soft), ns.b, [], [ns.x]);
    NothingFollows(w, Ask(ns.x, soft));
  }

  lemma PackageFollow(w: World, a: Ask, name: string, needs: seq<string>, recommends: seq<string>)
    requires Resolve(w, a.name) == Package(Named(name, needs, recommends))
    ensures Follow(w, a) == Asks(needs, false) + Asks(recommends, true)
  {
    hide Resolve, Asks;
  }

  lemma AskNone(soft: bool)
    ensures Asks([], soft) == []
  {
    hide Strip;
  }

  lemma AskOne(n: string, soft: bool)
    requires Plain(n)
    ensures Asks([n], soft) == [Ask(n, soft)]
  {
    WordIsPlain(n);
    RequestOne(n);
    hide *;
  }

  lemma AskTwo(m: string, n: string, soft: bool)
    requires Plain(m) && Plain(n)
    ensures Asks([m, n], soft) == [Ask(m, soft), Ask(n, soft)]
  {
    AskOne(m, soft);
    AskOne(n, soft);
    hide *;
    var two := [m, n];
    Pair(m, n);
    assert two[1] == n;
    AsksUpTo(two, soft, 1);
    calc {
      Asks(two, soft);
      Asks(two[..1 + 1], soft);
      Asks(two[..1], soft) + Asks([two[1]], soft);
      [Ask(m, soft)] + [Ask(n, soft)];
      [Ask(m, soft), Ask(n, soft)];
    }
  }

  lemma Pair<T>(m: T, n: T)
    ensures [m, n][..1] == [m] && [m, n][..2] == [m, n]
  {
  }

  /** Asked for as a recommendation of b first, x is missing, required by a, and not
      reported. */
  lemma SoftFirstIsUnreported(ns: Names)
    requires ns.Valid()
    ensures UnresolvedList(TwoPackages(ns, [ns.b, ns.x]), [ns.a]) == []
  {
    var w, a, b, x, soft := TwoPackages(ns, [ns.b, ns.x]), Ask(ns.a, false), Ask(ns.b, false), Ask(ns.x, false), Ask(ns.x, true);
    TwoPackagesResolve(ns, [ns.b, ns.x]);
    TwoPackagesFollow(ns, [ns.b, ns.x], false);
    TwoPackagesFollow(ns, [ns.b, ns.x], true);
    AskOne(ns.a, false);
    AskTwo(ns.b, ns.x, false);
    SeedsCanAsk(w, [ns.a]);
    hide GraphOf, Resolve, Follow, TwoPackages, Walk, WalkAll, Reported, Requests, Strip, IsBoolean, Asks, CanAsk;
    SoftFirstWalk(w, Requests([ns.a]), a, b, soft, x);
    SoftFirstReport(w, a, b, soft, x);
  }

  /** With the two requirements of a in the other order x is reported. */
  lemma HardFirstIsReported(ns: Names)
    requires ns.Valid()
    ensures UnresolvedList(TwoPackages(ns, [ns.x, ns.b]), [ns.a]) == [ns.x]
  {
    var w, a, b, x, soft := TwoPackages(ns, [ns.x, ns.b]), Ask(ns.a, false), Ask(ns.b, false), Ask(ns.x, false), Ask(ns.x, true);
    TwoPackagesResolve(ns, [ns.x, ns.b]);
    TwoPackagesFollow(ns, [ns.x, ns.b], false);
    TwoPackagesFollow(ns, [ns.x, ns.b], true);
    AskOne(ns.a, false);
    AskTwo(ns.x, ns.b, false);
    SeedsCanAsk(w, [ns.a]);
    hide GraphOf, Resolve, Follow, TwoPackages, Walk, WalkAll, Reported, Requests, Strip, IsBoolean, Asks, CanAsk;
    HardFirstWalk(w, Requests([ns.a]), a, b, soft, x);
    HardFirstReport(w, a, b, soft, x);
  }

  lemma SoftFirstWalk(w: World, roots: seq<string>, a: Ask, b: Ask, soft: Ask, x: Ask)
    requires CanAsk(w, roots, [a]) && Follow(w, a) == [b, x] && Follow(w, b) == [soft] && Follow(w, soft) == []
    requires soft.name == x.name && a.name != b.name && a.name != x.name && b.name != x.name
    ensures WalkAll(w, roots, [a], Log({}, [])).asks == [a, b, soft, x]
  {
    var l0 := Log({}, []);
    var l1 := After(l0, a);
    var l2 := After(l1, b);
    var l3 := After(l2, soft);
    hide GraphOf, Follow, Walk, CanAsk, WalkAll;
    WalkStep(w, roots, [a], l0, [b, x]);
    WalkStep(w, roots, [b, x], l1, [soft, x]);
    WalkStep(w, roots, [soft, x], l2, [x]);
    WalkStep(w, roots, [x], l3, []);
    WalkNone(w, roots, After(l3, x));
  }

  lemma HardFirstWalk(w: World, roots: seq<string>, a: Ask, b: Ask, soft: Ask, x: Ask)
    requires CanAsk(w, roots, [a]) && Follow(w, a) == [x, b] && Follow(w, b) == [soft] && Follow(w, x) == []
    requires soft.name == x.name && a.name != b.name && a.name != x.name && b.name != x.name
    ensures WalkAll(w, roots, [a], Log({}, [])).asks == [a, x, b, soft]
  {
    var l0 := Log({}, []);
    var l1 := After(l0, a);
    var l2 := After(l1, x);
    var l3 := After(l2, b);
    hide GraphOf, Follow, Walk, CanAsk, WalkAll;
    WalkStep(w, roots, [a], l0, [x, b]);
    WalkStep(w, roots, [x, b], l1, [b]);
    WalkStep(w, roots, [b], l2, [soft]);
    WalkStep(w, roots, [soft], l3, []);
    WalkNone(w, roots, After(l3, soft));
  }

  lemma WalkNone(w: World, roots: seq<string>, l: Log)
    ensures CanAsk(w, roots, []) && WalkAll(w, roots, [], l) == l
  {
  }

  lemma SoftFirstReport(w: World, a: Ask, b: Ask, soft: Ask, x: Ask)
    requires !Resolve(w, a.name).Missing? && !Resolve(w, b.name).Missing? && soft.soft && soft.name == x.name
    ensures Reported(w, [a, b, soft, x]) == []
  {
    hide Resolve;
    ReportedSnoc(w, [a, b, soft], x);
    ReportedSnoc(w, [a, b], soft);
    ReportedSnoc(w, [a], b);
    ReportedSnoc(w, [], a);
    assert [] + [a] == [a] && [a] + [b] == [a, b] && [a, b] + [soft] == [a, b, soft] && [a, b, soft] + [x] == [a, b, soft, x];
    assert soft in [a, b, soft];
  }

  lemma HardFirstReport(w: World, a: Ask, b: Ask, soft: Ask, x: Ask)
    requires !Resolve(w, a.name).Missing? && !Resolve(w, b.name).Missing? && soft.soft && soft.name == x.name
    requires Resolve(w, x.name).Missing? && !x.soft && a.name != x.name
    ensures Reported(w, [a, x, b, soft]) == [x.name]
  {
    hide Resolve;
    ReportedSnoc(w, [a, x, b], soft);
    ReportedSnoc(w, [a, x], b);
    ReportedSnoc(w, [a], x);
    ReportedSnoc(w, [], a);
    assert [] + [a] == [a] && [a] + [x] == [a, x] && [a, x] + [b] == [a, x, b] && [a, x, b] + [soft] == [a, x, b, soft];
    assert x in [a, x, b];
  }

  // ---- what is on the system leads nowhere ---------------------------------------------

  lemma OnlySeeds(w: World, seeds: seq<string>, n: string)
    requires Reachable(w, seeds, n) && forall r :: r in Requests(seeds) ==> Next(w, r) == []
    ensures n in Requests(seeds)
  {
    var g, roots := GraphOf(w, Requests(seeds)), Requests(seeds);
    RootsInGraph(w, seeds);
    hide GraphOf, Requests, Next;
    var r :| r in roots && Reaches(g, r, n);
    GraphNext(w, roots, r);
    WayOut(g, r, n);
  }

  /** Seeds that are all on the system lead nowhere, whatever they require. */
  lemma SatisfiedSeedsStop(w: World, seeds: seq<string>)
    requires forall n :: n in Requests(seeds) ==> Resolve(w, n).Satisfied?
    ensures InstallList(w, seeds) == [] && UnresolvedList(w, seeds) == []
  {
    assert forall r :: r in Requests(seeds) ==> Next(w, r) == [];
    hide Requests, InstallList, UnresolvedList, Resolve, Trace, Reachable, Next, FirstIsHard;
    var list, missing := InstallList(w, seeds), UnresolvedList(w, seeds);
    if list != [] {
      InstallListIsExact(w, seeds, list[0]);
      var n :| Reachable(w, seeds, n) && Resolve(w, n) == Package(list[0]);
      OnlySeeds(w, seeds, n);
      assert false;
    }
    if missing != [] {
      ReportedIsReachable(w, seeds, missing[0]);
      OnlySeeds(w, seeds, missing[0]);
      assert false;
    }
  }

  lemma ReportedIsReachable(w: World, seeds: seq<string>, n: string)
    requires n in UnresolvedList(w, seeds)
    ensures Reachable(w, seeds, n) && Resolve(w, n).Missing?
  {
    hide Trace, Reachable, Resolve;
    UnresolvedListIsExact(w, seeds, n);
    ReportedExactly(w, Trace(w, seeds), n);
    TraceIsReachable(w, seeds, n);
  }

  /** a is installed and requires b, which is known and not installed: asking for a lists
      and reports nothing. */
  lemma InstalledIsNotWalked(ns: Names)
    requires ns.Valid()
    ensures var w := TwoPackages(ns, [ns.b]).(installed := {ns.a});
      ns.b in w.ix.packages[ns.a].needs && InstallList(w, [ns.a]) == [] && UnresolvedList(w, [ns.a]) == []
  {
    var w := TwoPackages(ns, [ns.b]).(installed := {ns.a});
    WordIsPlain(ns.a);
    RequestOne(ns.a);
    hide Requests, InstallList, UnresolvedList, IsBoolean, Strip, Plain;
    SatisfiedSeedsStop(w, [ns.a]);
  }

  // ---- the visitor -------------------------------------------------------------

  class DepVisitor {
    const w: World
    ghost const roots: seq<string>
    var seen: set<string>
    var order: seq<Pkg>
    var unres: seq<string>
    ghost var p: Progress<string>
    ghost var log: Log

    ghost predicate Valid()
      reads this
    {
      seen == p.seen <= GraphOf(w, roots).Keys && order == Collect(p.done, Emits(w)) && Logged()
    }

    ghost predicate Logged()
      reads this`seen, this`unres, this`log
    {
      && seen == log.seen && unres == Reported(w, log.asks)
      && forall n :: n in seen <==> IsNamed(log.asks, n)
    }

    constructor (w: World, ghost roots: seq<string>)
      ensures Valid() && p == Start() && log == Log({}, []) && this.w == w && this.roots == roots
    {
      this.w, this.roots := w, roots;
      seen, order, unres, p, log := {}, [], [], Start(), Log({}, []);
    }

    ghost function AfterAll(ns: seq<string>, q: Progress<string>): (t: Progress<string>)
      requires forall n :: n in ns ==> n in GraphOf(w, roots)
      ensures q.seen <= t.seen
    {
      GraphIsClosed(w, roots);
      VisitAll(GraphOf(w, roots), ns, q)
    }

    ghost function Done(n: string, q: Progress<string>): (t: Progress<string>)
      requires n in GraphOf(w, roots)
      ensures q.seen <= t.seen
    {
      GraphIsClosed(w, roots);
      var r := VisitAll(GraphOf(w, roots), GraphOf(w, roots)[n], q);
      r.(done := r.done + [n])
    }

    ghost method Finish(n: string, order0: seq<Pkg>)
      requires n in GraphOf(w, roots) && p.seen <= GraphOf(w, roots).Keys
      requires order0 == Collect(p.done, Emits(w))
      requires order == order0 + (if Emits(w)(n).Some? then [Emits(w)(n).value] else [])
      requires seen == p.seen && Logged()
      modifies this`p
      ensures Valid() && p == old(p).(done := old(p).done + [n])
    {
      hide GraphOf, Collect, Resolve, Reported;
      CollectSnoc(p.done, n, Emits(w));
      p := p.(done := p.done + [n]);
    }

    method Visit(name0: string, soft: bool)
      requires Valid() && (Strip(name0) != "" ==> Strip(name0) in GraphOf(w, roots))
      modifies this`seen, this`order, this`unres, this`p, this`log
      ensures Valid() && old(p).seen <= p.seen
      ensures p == AfterAll(Requests([name0]), old(p))
      ensures CanAsk(w, roots, Asks([name0], soft)) && log == WalkAll(w, roots, Asks([name0], soft), old(log))
      decreases GraphOf(w, roots).Keys - p.seen, 0
    {
      hide GraphOf, Strip, Collect, Requests, Expand, IsBoolean, Resolve, Follow, Reported, IsNamed;
      var name := Strip(name0);
      RequestOne(name0);
      GraphIsClosed(w, roots);
      ghost var a, before := Ask(name, soft), log;
      if name == "" {
        assert Asks([name0], soft) == [];
        return;
      }
      assert Asks([name0], soft) == [a];
      VisitOne(GraphOf(w, roots), name, p);
      WalkOne(w, roots, a, log);
      if name in seen {
        Repeat(a);
        return;
      }
      GraphNext(w, roots, name);
      FollowsNext(w, roots, a);
      if Resolve(w, name).Missing? {
        MarkMissing(name, soft);
        NothingFollows(w, a);
        assert p == AfterAll(Next(w, name), p);
        Finish(name, order);
      } else {
        Mark(name, a);
        VisitMarked(name, soft);
      }
    }

    /** A call for a name already visited. */
    ghost method Repeat(a: Ask)
      requires Valid() && a.name in seen
      modifies this`log
      ensures Valid() && log == After(old(log), a)
    {
      hide GraphOf, Collect, Resolve, Reported;
      ReportedSnoc(w, log.asks, a);
      NamedSnoc(log.asks, a);
      log := After(log, a);
    }

    method Mark(name: string, ghost a: Ask)
      requires Valid() && a.name == name && name in GraphOf(w, roots) && name !in seen && !Resolve(w, name).Missing?
      modifies this`seen, this`p, this`log
      ensures Valid() && name in seen && p == old(p).(seen := old(p).seen + {name})
      ensures log == After(old(log), a)
    {
      hide GraphOf, Collect, Resolve, Reported;
      ReportedSnoc(w, log.asks, a);
      NamedSnoc(log.asks, a);
      seen := seen + {name};
      log := After(log, a);
      p := p.(seen := p.seen + {name});
    }

    method MarkMissing(name: string, soft: bool)
      requires Valid() && name in GraphOf(w, roots) && name !in seen && Resolve(w, name).Missing?
      modifies this`seen, this`unres, this`p, this`log
      ensures Valid() && p == old(p).(seen := old(p).seen + {name})
      ensures log == After(old(log), Ask(name, soft))
    {
      hide GraphOf, Collect, Resolve, Reported, IsNamed;
      ghost var a := Ask(name, soft);
      ReportedSnoc(w, log.asks, a);
      NamedSnoc(log.asks, a);
      seen := seen + {name};
      log := After(log, a);
      p := p.(seen := p.seen + {name});
      if !soft {
        unres := unres + [name];
      }
    }

    /** The rest of a visit, by what the name stands for. */
    method VisitMarked(name: string, soft: bool)
      requires Valid() && name in GraphOf(w, roots) && name in seen && !Resolve(w, name).Missing?
      modifies this`seen, this`order, this`unres, this`p, this`log
      ensures Valid() && p == Done(name, old(p))
      ensures CanAsk(w, roots, Follow(w, Ask(name, soft)))
      ensures log == WalkAll(w, roots, Follow(w, Ask(name, soft)), old(log))
      decreases GraphOf(w, roots).Keys - p.seen, 3
    {
      hide GraphOf, Collect, Requests, Expand, IsBoolean, PickProvider, Logged, Asks;
      GraphIsClosed(w, roots);
      GraphNext(w, roots, name);
      FollowsNext(w, roots, Ask(name, soft));
      ghost var marked, log0 := p, log;
      var t := Resolve(w, name);
      assert t.Satisfied? ==> p == AfterAll(Next(w, name), p);
      if t.Rich? {
        var toks := ExpandBooleanDep(name);
        VisitEach(toks, true);
      } else if t.Package? {
        VisitEach(t.pkg.needs, false);
        VisitEach(t.pkg.recommends, true);
        WalkAllAppend(w, roots, Asks(t.pkg.needs, false), Asks(t.pkg.recommends, true), log0);
        VisitAllAppend(GraphOf(w, roots), Requests(t.pkg.needs), Requests(t.pkg.recommends), marked);
      } else if t.Virtual? {
        VisitEach([t.provider.name], soft);
      }
      ghost var order0 := order;
      if t.Package? {
        order := order + [t.pkg];
      }
      Finish(name, order0);
    }

    method VisitEach(names: seq<string>, soft: bool)
      requires Valid() && forall n :: n in Requests(names) ==> n in GraphOf(w, roots)
      modifies this`seen, this`order, this`unres, this`p, this`log
      ensures Valid() && old(p).seen <= p.seen
      ensures p == AfterAll(Requests(names), old(p))
      ensures CanAsk(w, roots, Asks(names, soft)) && log == WalkAll(w, roots, Asks(names, soft), old(log))
      decreases GraphOf(w, roots).Keys - p.seen, 2
    {
      hide GraphOf, Collect, Strip, Requests, Resolve, Logged, Asks, CanAsk;
      GraphIsClosed(w, roots);
      var i := 0;
      NoRequests(names);
      NoAsks(w, roots, names, soft);
      while i < |names|
        invariant 0 <= i <= |names| && Valid() && old(p).seen <= p.seen
        invariant forall n :: n in Requests(names[..i]) ==> n in GraphOf(w, roots)
        invariant p == AfterAll(Requests(names[..i]), old(p))
        invariant CanAsk(w, roots, Asks(names[..i], soft)) && log == WalkAll(w, roots, Asks(names[..i], soft), old(log))
      {
        RequestsUpTo(names, i);
        AsksUpTo(names, soft, i);
        VisitAllAppend(GraphOf(w, roots), Requests(names[..i]), Requests([names[i]]), old(p));
        Visit(names[i], soft);
        WalkAllAppend(w, roots, Asks(names[..i], soft), Asks([names[i]], soft), old(log));
        i := i + 1;
      }
      assert names[..i] == names;
    }
  }

  lemma NoAsks(w: World, roots: seq<string>, names: seq<string>, soft: bool)
    ensures Asks(names[..0], soft) == [] && CanAsk(w, roots, [])
  {
  }

  lemma AskEachAppend(a: seq<string>, b: seq<string>, soft: bool)
    ensures AskEach(a + b, soft) == AskEach(a, soft) + AskEach(b, soft)
  {
  }

  lemma AsksUpTo(names: seq<string>, soft: bool, i: nat)
    requires i < |names|
    ensures Asks(names[..i + 1], soft) == Asks(names[..i], soft) + Asks([names[i]], soft)
  {
    RequestsUpTo(names, i);
    hide Requests, Strip, AskEach;
    AskEachAppend(Requests(names[..i]), Requests([names[i]]), soft);
  }

  lemma NamedSnoc(asks: seq<Ask>, a: Ask)
    ensures forall n :: IsNamed(asks + [a], n) <==> IsNamed(asks, n) || n == a.name
  {
    assert a in asks + [a];
  }

  lemma NothingFollows(w: World, a: Ask)
    requires Resolve(w, a.name).Missing?
    ensures Follow(w, a) == [] && Next(w, a.name) == []
  {
    hide Resolve;
  }

  lemma GraphNext(w: World, roots: seq<string>, n: string)
    requires n in GraphOf(w, roots)
    ensures GraphOf(w, roots)[n] == Next(w, n)
    ensures forall d :: d in Next(w, n) ==> d in GraphOf(w, roots)
  {
    forall d | d in Next(w, n)
      ensures d in GraphOf(w, roots)
    {
      SuccessorInUniverse(w, roots, n, d);
    }
    hide Next, Universe;
  }

  lemma NoRequests(names: seq<string>)
    ensures Requests(names[..0]) == []
  {
  }

  lemma RequestOne(name: string)
    ensures Requests([name]) == if Strip(name) == "" then [] else [Strip(name)]
  {
    hide Strip;
    assert [name][..0] == [];
  }

  lemma RequestsUpTo(names: seq<string>, i: nat)
    requires i < |names|
    ensures Requests(names[..i + 1]) == Requests(names[..i]) + Requests([names[i]])
    ensures forall n :: n in Requests([names[i]]) ==> n in Requests(names)
    ensures Strip(names[i]) != "" ==> Strip(names[i]) in Requests(names) && Strip(names[i]) in Requests([names[i]])
  {
    hide Strip;
    assert names[..i + 1][..i] == names[..i];
    RequestOne(names[i]);
  }

  /** Stripping a constraint twice, as happens to seeds, changes nothing. */
  lemma StripTwice(name: string)
    ensures Strip(Strip(name)) == Strip(name)
  {
    hide Trim, Before;
    var n := Trim(name);
    TrimOfTrimmed(n);
    if n == "" || n[0] != '(' {
      var b := Before(n, ' ');
      var r := Trim(b);
      TrimOfTrimmed(r);
      TrimKeepsOut(b, ' ');
      BeforeNothing(r, ' ');
      BeforeKeepsFront(n, ' ');
      TrimKeepsFront(b);
    }
  }

  method ResolveDeps(w: World, seeds: seq<string>) returns (order: seq<Pkg>, unres: seq<string>)
    ensures order == InstallList(w, seeds) && unres == UnresolvedList(w, seeds)
  {
    hide GraphOf, Requests, Collect, Resolve, Strip, Asks;
    ghost var roots := Requests(seeds);
    RootsInGraph(w, seeds);
    SeedsCanAsk(w, seeds);
    GraphIsClosed(w, roots);
    var visitor := new DepVisitor(w, roots);
    forall s | s in seeds {
      StripTwice(s);
    }
    visitor.VisitEach(seeds, false);
    return visitor.order, visitor.unres;
  }

  lemma RootsInGraph(w: World, seeds: seq<string>)
    ensures forall r :: r in Requests(seeds) ==> r in GraphOf(w, Requests(seeds))
  {
    hide Requests, Expand, Next;
  }
}
