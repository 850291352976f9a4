/** The dnf package index: which candidate of a name is kept, and which
    capabilities it registers. */
module DnfIndex {
  import opened Text
  import opened DebVersion

  const NOARCH: string := "noarch"

  datatype Pkg = Pkg(
    name: string,
    arch: string,
    version: string,
    release: string,
    epoch: string,
    locationHref: string,
    needs: seq<string>,
    provided: seq<string>,
    recommends: seq<string>)

  function EvrString(p: Pkg): string {
    (if p.epoch == "" then "0" else p.epoch) + ":" + p.version + "-" + p.release
  }

  /** What the index is built with: the host architecture, the RPM version
      comparison, and the module-stream filter. */
  datatype Rules = Rules(host: string, vercmp: (string, string) -> int, blocked: Pkg -> bool)
  {
    /** The comparison is a total preorder, and the host is a concrete architecture. */
    ghost predicate Valid() {
      Preorder(vercmp) && host != NOARCH
    }

    predicate Newer(existing: Pkg, candidate: Pkg) {
      vercmp(EvrString(candidate), EvrString(existing)) > 0
    }

    predicate ShouldReplace(existing: Pkg, candidate: Pkg) {
      if existing.locationHref == "" && candidate.locationHref != "" then true
      else if existing.arch != candidate.arch then
        candidate.arch == host || (candidate.arch == NOARCH && existing.arch != host)
      else Newer(existing, candidate)
    }

    /** Host architecture over noarch over anything else. */
    function Rank(p: Pkg): nat {
      if p.arch == host then 2 else if p.arch == NOARCH then 1 else 0
    }
  }

  datatype Index = Index(packages: map<string, Pkg>, providers: map<string, seq<Pkg>>)

  const EMPTY: Index := Index(map[], map[])

  /** `StripRPMConstraint`: trimmed, rich dependencies kept whole, others cut at
      the first blank. */
  function Strip(name: string): string {
    var n := Trim(name);
    if n != "" && n[0] == '(' then n else Trim(Before(n, ' '))
  }

  function ProvidersOf(m: map<string, seq<Pkg>>, name: string): seq<Pkg> {
    if name in m then m[name] else []
  }

  function Register(m: map<string, seq<Pkg>>, p: Pkg, caps: seq<string>): map<string, seq<Pkg>>
    decreases |caps|
  {
    if caps == [] then m
    else
      var rest := Register(m, p, caps[..|caps| - 1]);
      var c := Strip(caps[|caps| - 1]);
      if c == "" || c == p.name then rest else rest[c := ProvidersOf(rest, c) + [p]]
  }

  function Added(rules: Rules, ix: Index, p: Pkg): Index {
    if rules.blocked(p) then ix
    else
      Index(if p.name !in ix.packages || rules.ShouldReplace(ix.packages[p.name], p) then ix.packages[p.name := p] else ix.packages,
            Register(ix.providers, p, p.provided))
  }

  function AddAll(rules: Rules, ps: seq<Pkg>): Index {
    if ps == [] then EMPTY else Added(rules, AddAll(rules, ps[..|ps| - 1]), ps[|ps| - 1])
  }

  class Cache {
    const rules: Rules
    var packages: map<string, Pkg>
    var providers: map<string, seq<Pkg>>

    constructor (rules: Rules)
      ensures View() == EMPTY && this.rules == rules
    {
      this.rules, packages, providers := rules, map[], map[];
    }

    function View(): Index
      reads this
    {
      Index(packages, providers)
    }

    method AddPackage(p: Pkg)
      modifies this
      ensures View() == Added(rules, old(View()), p)
    {
      hide Strip;
      if rules.blocked(p) {
        return;
      }
      if p.name !in packages || rules.ShouldReplace(packages[p.name], p) {
        packages := packages[p.name := p];
      }
      var i := 0;
      while i < |p.provided|
        invariant 0 <= i <= |p.provided| && providers == Register(old(providers), p, p.provided[..i])
        invariant packages == Added(rules, old(View()), p).packages
      {
        assert p.provided[..i + 1][..i] == p.provided[..i];
        var capName := Strip(p.provided[i]);
        i := i + 1;
        if capName == "" || capName == p.name {
          continue;
        }
        providers := providers[capName := ProvidersOf(providers, capName) + [p]];
      }
      assert p.provided[..i] == p.provided;
    }
  }

  // ---- the kept candidate does not depend on the order of arrival -----------

  predicate Candidate(rules: Rules, ps: seq<Pkg>, name: string, p: Pkg) {
    p in ps && p.name == name && !rules.blocked(p)
  }

  ghost predicate Downloadable(rules: Rules, ps: seq<Pkg>, name: string) {
    forall p :: Candidate(rules, ps, name, p) ==> p.locationHref != ""
  }

  /** p is no newer than r: no epoch is epoch zero. */
  predicate AtMost(rules: Rules, p: Pkg, r: Pkg) {
    rules.vercmp((if p.epoch == "" then "0" else p.epoch) + ":" + p.version + "-" + p.release,
                 (if r.epoch == "" then "0" else r.epoch) + ":" + r.version + "-" + r.release) <= 0
  }

  /** r is the best of its name: of the host's architecture if there is one, else noarch if
      there is one, and no older than any other of its architecture. */
  ghost predicate IsBest(rules: Rules, ps: seq<Pkg>, name: string, r: Pkg) {
    && Candidate(rules, ps, name, r)
    && forall p :: Candidate(rules, ps, name, p) ==>
        && (p.arch == rules.host ==> r.arch == rules.host)
        && (p.arch == NOARCH ==> r.arch == rules.host || r.arch == NOARCH)
        && (p.arch == r.arch ==> AtMost(rules, p, r))
  }

  /** Between candidates that are equally downloadable, rank decides first and
      version second. */
  lemma ReplaceByRank(rules: Rules, e: Pkg, c: Pkg)
    requires rules.Valid()
    ensures rules.ShouldReplace(e, c) <==>
      || (e.locationHref == "" && c.locationHref != "")
      || rules.Rank(c) > rules.Rank(e)
      || (c.arch == e.arch && rules.Newer(e, c))
  {
  }

  /** A downloadable candidate can be lost to one that is not: that happens
      exactly when the other one ranks higher, or is newer on the same
      architecture. */
  lemma DownloadableIsLost(rules: Rules, e: Pkg, c: Pkg)
    requires rules.Valid() && e.locationHref != "" && c.locationHref == ""
    ensures rules.ShouldReplace(e, c) <==> rules.Rank(c) > rules.Rank(e) || (c.arch == e.arch && rules.Newer(e, c))
    ensures c.arch == rules.host && e.arch == NOARCH ==> rules.ShouldReplace(e, c)
  {
  }

  /** Of two candidates, one downloadable and one not, the kept one depends on the order
      in which they arrive exactly when the second would replace the first. */
  lemma TwoArrivals(rules: Rules, e: Pkg, c: Pkg)
    requires e.name == c.name && !rules.blocked(e) && !rules.blocked(c) && e.locationHref != "" && c.locationHref == ""
    ensures AddAll(rules, [e, c]).packages == map[e.name := if rules.ShouldReplace(e, c) then c else e]
    ensures AddAll(rules, [c, e]).packages == map[e.name := e]
  {
    ArriveTwo(rules, e, c);
    ArriveTwo(rules, c, e);
    hide AddAll, EvrString;
  }

  lemma ArriveTwo(rules: Rules, p: Pkg, q: Pkg)
    requires p.name == q.name && !rules.blocked(p) && !rules.blocked(q)
    ensures AddAll(rules, [p, q]) ==
      Index(map[p.name := if rules.ShouldReplace(p, q) then q else p], Register(Register(map[], p, p.provided), q, q.provided))
  {
    hide Register, EvrString;
    assert [p, q][..1] == [p] && [p][..0] == [];
    assert AddAll(rules, [p]) == Added(rules, EMPTY, p);
  }

  /** A noarch package with a file is kept or lost to one of the host architecture
      without, by the order of arrival alone. */
  lemma ArrivalOrderCanMatter(rules: Rules, e: Pkg, c: Pkg)
    requires rules.Valid() && e.name == c.name && !rules.blocked(e) && !rules.blocked(c)
    requires e.arch == NOARCH && e.locationHref != "" && c.arch == rules.host && c.locationHref == ""
    ensures AddAll(rules, [e, c]).packages == map[e.name := c]
    ensures AddAll(rules, [c, e]).packages == map[e.name := e]
  {
    TwoArrivals(rules, e, c);
    DownloadableIsLost(rules, e, c);
    hide AddAll, EvrString;
  }

  ghost predicate SomeDownloadable(rules: Rules, ps: seq<Pkg>, name: string) {
    exists p :: Candidate(rules, ps, name, p) && p.locationHref != ""
  }

  /** The kept candidate can be downloaded whenever some candidate can. */
  ghost predicate KeepsDownloadable(rules: Rules, ps: seq<Pkg>, name: string) {
    SomeDownloadable(rules, ps, name) ==>
      name in AddAll(rules, ps).packages && AddAll(rules, ps).packages[name].locationHref != ""
  }

  /** No candidate that cannot be downloaded would replace one that can. */
  ghost predicate NoneLost(rules: Rules, ps: seq<Pkg>, name: string) {
    forall e, c :: Candidate(rules, ps, name, e) && Candidate(rules, ps, name, c) && e.locationHref != "" && c.locationHref == "" ==>
      !rules.ShouldReplace(e, c)
  }

  ghost predicate Drawn(ps: seq<Pkg>, pool: seq<Pkg>) {
    forall p :: p in ps ==> p in pool
  }

  lemma {:induction false} NoneLostKeeps(rules: Rules, ps: seq<Pkg>, pool: seq<Pkg>, name: string)
    requires NoneLost(rules, pool, name) && Drawn(ps, pool)
    ensures KeepsDownloadable(rules, ps, name)
  {
    if ps != [] {
      var init, c := ps[..|ps| - 1], ps[|ps| - 1];
      assert ps == init + [c] && c in ps;
      NoneLostKeeps(rules, init, pool, name);
      KeptIsCandidate(rules, init, name);
      AddedAt(rules, AddAll(rules, init), c, name);
      assert forall p :: Candidate(rules, ps, name, p) ==> Candidate(rules, init, name, p) || (p == c && c.name == name && !rules.blocked(c));
      assert forall p :: Candidate(rules, init, name, p) ==> Candidate(rules, pool, name, p);
      assert c.name == name && !rules.blocked(c) ==> Candidate(rules, pool, name, c);
      hide Candidate, Added, EvrString;
      assert ps[..|ps| - 1] == init;
    }
  }

  /** A name keeps a downloadable candidate in every sequence of arrivals drawn from a
      pool exactly when no candidate of the pool that cannot be downloaded would replace
      one that can. */
  lemma DownloadableIsKeptExactly(rules: Rules, pool: seq<Pkg>, name: string)
    requires rules.Valid()
    ensures (forall ps :: Drawn(ps, pool) ==> KeepsDownloadable(rules, ps, name)) <==> NoneLost(rules, pool, name)
  {
    if NoneLost(rules, pool, name) {
      forall ps | Drawn(ps, pool)
        ensures KeepsDownloadable(rules, ps, name)
      {
        NoneLostKeeps(rules, ps, pool, name);
      }
    } else {
      var e, c :| Candidate(rules, pool, name, e) && Candidate(rules, pool, name, c) && e.locationHref != ""
        && c.locationHref == "" && rules.ShouldReplace(e, c);
      TwoArrivals(rules, e, c);
      hide AddAll, EvrString;
      assert Candidate(rules, [e, c], name, e);
      assert Drawn([e, c], pool) && !KeepsDownloadable(rules, [e, c], name);
    }
  }

  /** A capability's provider need not be the package its name stands for: a newer one
      that no longer provides it takes its place in the index, while the capability
      still leads to that name. */
  lemma ProviderIsReplaced(rules: Rules, p: Pkg, q: Pkg, v: string)
    requires p.name == q.name && !rules.blocked(p) && !rules.blocked(q) && rules.ShouldReplace(p, q)
    requires Strip(v) == v && v != "" && v != p.name && p.provided == [v] && q.provided == []
    ensures AddAll(rules, [p, q]) == Index(map[p.name := q], map[v := [p]])
  {
    hide Strip, AddAll, EvrString, Register;
    ArriveTwo(rules, p, q);
    RegisterFirst(p, v);
    RegisterNone(map[v := [p]], q);
  }

  lemma RegisterFirst(p: Pkg, v: string)
    requires Strip(v) == v && v != "" && v != p.name
    ensures Register(map[], p, [v]) == map[v := [p]]
  {
    hide Strip, Register;
    RegisterOne(map[], p, v);
    var none: map<string, seq<Pkg>> := map[];
    assert ProvidersOf(none, v) + [p] == [p];
  }

  lemma RegisterNone(m: map<string, seq<Pkg>>, p: Pkg)
    ensures Register(m, p, []) == m
  {
  }

  lemma RegisterOne(m: map<string, seq<Pkg>>, p: Pkg, v: string)
    requires Strip(v) == v && v != "" && v != p.name
    ensures Register(m, p, [v]) == m[v := ProvidersOf(m, v) + [p]]
  {
    hide Strip;
    assert [v][..0] == [];
    RegisterNone(m, p);
  }

  lemma BestSurvives(rules: Rules, ps: seq<Pkg>, name: string, e: Pkg, c: Pkg)
    requires rules.Valid() && IsBest(rules, ps, name, e)
    requires c.name == name && !rules.blocked(c) && c.locationHref != "" && e.locationHref != ""
    ensures IsBest(rules, ps + [c], name, if rules.ShouldReplace(e, c) then c else e)
  {
    ReplaceByRank(rules, e, c);
    var r := if rules.ShouldReplace(e, c) then c else e;
    hide EvrString;
    assert Candidate(rules, ps + [c], name, r);
    forall p | Candidate(rules, ps + [c], name, p)
      ensures rules.Rank(p) <= rules.Rank(r) && (p.arch == r.arch ==> !rules.Newer(r, p))
    {
      var x, y, z := EvrString(p), EvrString(e), EvrString(c);
      assert p == c || Candidate(rules, ps, name, p);
      assert Chain(rules.vercmp(x, y), rules.vercmp(y, z), rules.vercmp(x, z));
      assert rules.vercmp(z, z) == -rules.vercmp(z, z) && rules.vercmp(y, z) == -rules.vercmp(z, y);
    }
  }

  lemma CandidateSnoc(rules: Rules, ps: seq<Pkg>, c: Pkg, name: string, p: Pkg)
    ensures Candidate(rules, ps + [c], name, p) <==> Candidate(rules, ps, name, p) || (p == c && c.name == name && !rules.blocked(c))
  {
  }

  lemma AddedAt(rules: Rules, ix: Index, c: Pkg, name: string)
    ensures var kept := Added(rules, ix, c).packages;
      if c.name != name || rules.blocked(c) then (name in kept <==> name in ix.packages) && (name in kept ==> kept[name] == ix.packages[name])
      else name in kept && kept[name] == if name !in ix.packages || rules.ShouldReplace(ix.packages[name], c) then c else ix.packages[name]
  {
    hide EvrString, Register;
  }

  /** Whatever the order in which packages arrive, a name is known exactly when an
      unblocked candidate carries it, and one of them is kept. */
  lemma {:induction false} KeptIsCandidate(rules: Rules, ps: seq<Pkg>, name: string)
    ensures name in AddAll(rules, ps).packages <==> exists p :: Candidate(rules, ps, name, p)
    ensures name in AddAll(rules, ps).packages ==> Candidate(rules, ps, name, AddAll(rules, ps).packages[name])
  {
    if ps != [] {
      var init, c := ps[..|ps| - 1], ps[|ps| - 1];
      assert ps == init + [c];
      KeptIsCandidate(rules, init, name);
      AddedAt(rules, AddAll(rules, init), c, name);
      forall p
        ensures Candidate(rules, ps, name, p) <==> Candidate(rules, init, name, p) || (p == c && c.name == name && !rules.blocked(c))
      {
        CandidateSnoc(rules, init, c, name, p);
      }
      hide Candidate, Added;
      assert c.name == name && !rules.blocked(c) ==> Candidate(rules, ps, name, c);
    }
  }

  /** When all its candidates can be downloaded the best of them is kept. */
  lemma {:induction false} KeptIsBest(rules: Rules, ps: seq<Pkg>, name: string)
    requires rules.Valid() && name in AddAll(rules, ps).packages && Downloadable(rules, ps, name)
    ensures IsBest(rules, ps, name, AddAll(rules, ps).packages[name])
  {
    KeptIsCandidate(rules, ps, name);
    var init, c := ps[..|ps| - 1], ps[|ps| - 1];
    assert ps == init + [c];
    forall p
      ensures Candidate(rules, ps, name, p) <==> Candidate(rules, init, name, p) || (p == c && c.name == name && !rules.blocked(c))
    {
      CandidateSnoc(rules, init, c, name, p);
    }
    AddedAt(rules, AddAll(rules, init), c, name);
    KeptIsCandidate(rules, init, name);
    hide Candidate, Added, EvrString;
    if name in AddAll(rules, init).packages {
      KeptIsBest(rules, init, name);
      if c.name == name && !rules.blocked(c) {
        BestSurvives(rules, init, name, AddAll(rules, init).packages[name], c);
      }
    } else {
      FirstIsBest(rules, ps, name, c);
    }
  }

  lemma FirstIsBest(rules: Rules, ps: seq<Pkg>, name: string, c: Pkg)
    requires rules.Valid() && Candidate(rules, ps, name, c) && forall p :: Candidate(rules, ps, name, p) ==> p == c
    ensures IsBest(rules, ps, name, c)
  {
    var x := EvrString(c);
    assert rules.vercmp(x, x) == -rules.vercmp(x, x);
    hide EvrString;
  }

  /** Two arrival orders of the same downloadable packages keep candidates of the
      same rank, and, unless both are foreign, of equivalent version. */
  lemma ArrivalOrderDoesNotMatter(rules: Rules, ps: seq<Pkg>, qs: seq<Pkg>, name: string)
    requires rules.Valid() && (forall p :: p in ps <==> p in qs)
    requires Downloadable(rules, ps, name)
    ensures var a, b := AddAll(rules, ps).packages, AddAll(rules, qs).packages;
      && (name in a <==> name in b)
      && (name in a ==> rules.Rank(a[name]) == rules.Rank(b[name]))
      && (name in a && rules.Rank(a[name]) > 0 ==> rules.vercmp(EvrString(a[name]), EvrString(b[name])) == 0)
  {
    hide AddAll, EvrString, AtMost;
    assert forall p :: Candidate(rules, ps, name, p) <==> Candidate(rules, qs, name, p);
    KeptIsCandidate(rules, ps, name);
    KeptIsCandidate(rules, qs, name);
    if name in AddAll(rules, ps).packages {
      KeptIsBest(rules, ps, name);
      KeptIsBest(rules, qs, name);
      var a, b := AddAll(rules, ps).packages[name], AddAll(rules, qs).packages[name];
      if a.arch == b.arch {
        BothWays(rules, a, b);
      }
    }
  }

  lemma BothWays(rules: Rules, p: Pkg, r: Pkg)
    requires rules.Valid() && AtMost(rules, p, r) && AtMost(rules, r, p)
    ensures rules.vercmp(EvrString(p), EvrString(r)) == 0
  {
    var x, y := EvrString(p), EvrString(r);
    assert rules.vercmp(x, y) == -rules.vercmp(y, x);
  }

  /** p provides the capability v: other than by its own name. */
  predicate Offers(p: Pkg, caps: seq<string>, v: string) {
    v != "" && v != p.name && exists c :: c in caps && Strip(c) == v
  }

  lemma {:induction false} RegisterExactly(m: map<string, seq<Pkg>>, p: Pkg, caps: seq<string>, v: string, q: Pkg)
    ensures q in ProvidersOf(Register(m, p, caps), v) <==> q in ProvidersOf(m, v) || (q == p && Offers(p, caps, v))
    decreases |caps|
  {
    hide Strip;
    if caps != [] {
      var init, last := caps[..|caps| - 1], caps[|caps| - 1];
      RegisterExactly(m, p, init, v, q);
      assert caps == init + [last];
      assert Offers(p, caps, v) <==> Offers(p, init, v) || (v != "" && v != p.name && Strip(last) == v);
    }
  }

  /** The providers of a capability are exactly the unblocked packages, kept or not, that
      provide it. */
  lemma {:induction false} ProvidersAreExact(rules: Rules, ps: seq<Pkg>, v: string, q: Pkg)
    ensures q in ProvidersOf(AddAll(rules, ps).providers, v) <==> q in ps && !rules.blocked(q) && Offers(q, q.provided, v)
  {
    hide Strip, Offers, Register, EvrString;
    if ps != [] {
      var init, last := ps[..|ps| - 1], ps[|ps| - 1];
      ProvidersAreExact(rules, init, v, q);
      RegisterExactly(AddAll(rules, init).providers, last, last.provided, v, q);
      assert ps == init + [last];
    }
  }

  predicate Word(s: string) {
    s != "" && s[0] != '(' && forall i :: 0 <= i < |s| ==> !IsSpace(s[i])
  }

  /** A name is cut off its constraint at the blank; a rich dependency is kept whole. */
  lemma StripCuts(name: string, rest: string)
    ensures Word(name) ==> Strip(name) == name && Strip(" " + name) == name && (rest == "" || !IsSpace(rest[|rest| - 1]) ==> Strip(name + " " + rest) == name)
    ensures rest != "" && !IsSpace(rest[|rest| - 1]) ==> Strip("(" + rest) == "(" + rest
  {
    if Word(name) {
      TrimOfTrimmed(name);
      BeforeNothing(name, ' ');
      TrimSpacePrefix(' ', name);
      assert [' '] + name == " " + name;
      StripConstraint(name, rest);
    }
    if rest != "" && !IsSpace(rest[|rest| - 1]) {
      TrimOfTrimmed("(" + rest);
    }
    hide Trim, Before;
  }

  lemma StripConstraint(name: string, rest: string)
    requires Word(name)
    ensures rest == "" || !IsSpace(rest[|rest| - 1]) ==> Strip(name + " " + rest) == name
  {
    var s := name + [' '] + rest;
    assert s == name + " " + rest;
    TrimOfTrimmed(name);
    BeforeNothing(name, ' ');
    BeforeAt(name, ' ', rest);
    if rest == "" {
      assert s == name + [' '];
      TrimSpaceSuffix(name, ' ');
    } else if !IsSpace(rest[|rest| - 1]) {
      TrimOfTrimmed(s);
    }
    hide Trim, Before;
  }

  /** Entries are stored under their own name, and every registered provider's
      name has an entry. */
  ghost predicate Coherent(ix: Index) {
    && (forall k :: k in ix.packages ==> ix.packages[k].name == k)
    && (forall v, p :: v in ix.providers && p in ix.providers[v] ==> p.name in ix.packages)
  }

  lemma {:induction false} RegisterAdds(m: map<string, seq<Pkg>>, p: Pkg, caps: seq<string>, v: string, q: Pkg)
    requires v in Register(m, p, caps) && q in Register(m, p, caps)[v]
    ensures q == p || (v in m && q in m[v])
    decreases |caps|
  {
    if caps != [] {
      hide Strip;
      var rest := Register(m, p, caps[..|caps| - 1]);
      if v in rest && q in rest[v] {
        RegisterAdds(m, p, caps[..|caps| - 1], v, q);
      }
    }
  }

  lemma AddKeepsCoherent(rules: Rules, ix: Index, p: Pkg)
    requires Coherent(ix)
    ensures Coherent(Added(rules, ix, p))
  {
    var r := Added(rules, ix, p);
    forall v, q | v in r.providers && q in r.providers[v]
      ensures q.name in r.packages
    {
      if !rules.blocked(p) {
        RegisterAdds(ix.providers, p, p.provided, v, q);
      }
    }
  }

  lemma {:induction false} AddAllIsCoherent(rules: Rules, ps: seq<Pkg>)
    ensures Coherent(AddAll(rules, ps))
  {
    if ps != [] {
      AddAllIsCoherent(rules, ps[..|ps| - 1]);
      AddKeepsCoherent(rules, AddAll(rules, ps[..|ps| - 1]), ps[|ps| - 1]);
      hide Added;
    }
  }
}
