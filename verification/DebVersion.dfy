/** Debian version comparison (deb-version(7), Debian Policy section 5.6.12). */
module DebVersion {
  import opened Text

  // ---- preorders and their lexicographic extension ------------------------

  /** Three comparisons of a, b, c fit one total preorder when a <= b <= c. */
  predicate Chain(ab: int, bc: int, ac: int) {
    ab <= 0 && bc <= 0 ==> ac <= 0 && (ac == 0 <==> ab == 0 && bc == 0)
  }

  /** cmp answers -1, 0 or 1, negates when swapped, and is transitive. */
  ghost predicate Preorder<T(!new)>(cmp: (T, T) -> int) {
    && (forall a, b :: -1 <= cmp(a, b) <= 1 && cmp(a, b) == -cmp(b, a))
    && (forall a, b, c :: Chain(cmp(a, b), cmp(b, c), cmp(a, c)))
  }

  function At<T>(xs: seq<T>, pad: T, i: nat): T {
    if i < |xs| then xs[i] else pad
  }

  /** Compare from position i on; the shorter sequence reads as padded. */
  function Lex<T>(cmp: (T, T) -> int, pad: T, xs: seq<T>, ys: seq<T>, i: nat): int
    decreases |xs| + |ys| - i
  {
    if i >= |xs| && i >= |ys| then 0
    else
      var c := cmp(At(xs, pad, i), At(ys, pad, i));
      if c != 0 then c else Lex(cmp, pad, xs, ys, i + 1)
  }

  lemma {:induction false} LexSwap<T(!new)>(cmp: (T, T) -> int, pad: T, xs: seq<T>, ys: seq<T>, i: nat)
    requires Preorder(cmp)
    ensures -1 <= Lex(cmp, pad, xs, ys, i) <= 1
    ensures Lex(cmp, pad, xs, ys, i) == -Lex(cmp, pad, ys, xs, i)
    decreases |xs| + |ys| - i
  {
    if i < |xs| || i < |ys| {
      LexSwap(cmp, pad, xs, ys, i + 1);
    }
  }

  lemma {:induction false} LexChain<T(!new)>(cmp: (T, T) -> int, pad: T, xs: seq<T>, ys: seq<T>, zs: seq<T>, i: nat)
    requires Preorder(cmp)
    ensures Chain(Lex(cmp, pad, xs, ys, i), Lex(cmp, pad, ys, zs, i), Lex(cmp, pad, xs, zs, i))
    decreases |xs| + |ys| + |zs| - i
  {
    if i < |xs| || i < |ys| || i < |zs| {
      LexChain(cmp, pad, xs, ys, zs, i + 1);
      assert cmp(pad, pad) == 0;
      var x, y, z := At(xs, pad, i), At(ys, pad, i), At(zs, pad, i);
      assert Chain(cmp(x, y), cmp(y, z), cmp(x, z));
    }
  }

  /** Comparing from i + 1 on is comparing the tails from i on. */
  lemma {:induction false} LexTail<T>(cmp: (T, T) -> int, pad: T, xs: seq<T>, ys: seq<T>, i: nat)
    ensures Lex(cmp, pad, xs, ys, i + 1) == Lex(cmp, pad, Tail(xs), Tail(ys), i)
    decreases |xs| + |ys| - i
  {
    if i + 1 < |xs| || i + 1 < |ys| {
      LexTail(cmp, pad, xs, ys, i + 1);
    }
  }

  /** One step of the comparison, for a pad that equals itself. */
  lemma LexUnfold<T>(cmp: (T, T) -> int, pad: T, xs: seq<T>, ys: seq<T>)
    requires cmp(pad, pad) == 0
    ensures var c := cmp(At(xs, pad, 0), At(ys, pad, 0));
            Lex(cmp, pad, xs, ys, 0) == if c != 0 then c else Lex(cmp, pad, Tail(xs), Tail(ys), 0)
  {
    LexTail(cmp, pad, xs, ys, 0);
  }

  function Tail<T>(xs: seq<T>): seq<T> {
    if xs == [] then [] else xs[1..]
  }

  // ---- the comparison as functions ----------------------------------------

  function CompareInt(a: int, b: int): int {
    if a < b then -1 else if a > b then 1 else 0
  }

  /** Sort key of a byte in a non-digit chunk: '~' < end < letters < the rest. */
  function CharOrder(c: char): int {
    if c == '~' then '~' as int
    else if c == '\0' then 0x1_0000
    else if IsLetter(c) then 0x2_0000 + c as int
    else 0x3_0000 + c as int
  }

  predicate IsLetter(c: char) {
    'A' <= c <= 'Z' || 'a' <= c <= 'z'
  }

  function CompareChar(c: char, d: char): int {
    CompareInt(CharOrder(c), CharOrder(d))
  }

  /** Non-digit chunks compare byte by byte; a chunk that has ended reads as NUL. */
  function CompareNonDigit(a: string, b: string): int {
    Lex(CompareChar, '\0', a, b, 0)
  }

  /** Length of the longest prefix without digits. */
  function NonDigitLen(s: string): (n: nat)
    ensures n <= |s| && forall i :: 0 <= i < n ==> !IsDigit(s[i])
    ensures n == |s| || IsDigit(s[n])
  {
    if s == "" || IsDigit(s[0]) then 0 else 1 + NonDigitLen(s[1..])
  }

  /** Length of the longest prefix of digits. */
  function DigitLen(s: string): (len: nat)
    ensures len <= |s| && forall i :: 0 <= i < len ==> IsDigit(s[i])
    ensures len == |s| || !IsDigit(s[len])
  {
    if s == "" || !IsDigit(s[0]) then 0 else 1 + DigitLen(s[1..])
  }

  predicate AllDigits(s: string) {
    forall i :: 0 <= i < |s| ==> IsDigit(s[i])
  }

  function TrimZeros(s: string): (r: string)
    ensures |r| <= |s| && (r == "" || r[0] != '0')
  {
    if s != "" && s[0] == '0' then TrimZeros(s[1..]) else s
  }

  function CompareDigit(a: string, b: string): int {
    var x, y := TrimZeros(a), TrimZeros(b);
    if |x| != |y| then CompareInt(|x|, |y|) else Compare(x, y)
  }

  /** What remains after the first non-digit chunk and the digit chunk after it. */
  function Rest(s: string): (r: string)
    ensures |r| <= |s| && (s != "" ==> |r| < |s|)
  {
    var t := s[NonDigitLen(s)..];
    t[DigitLen(t)..]
  }

  function NonDigits(s: string): string {
    s[..NonDigitLen(s)]
  }

  function Digits(s: string): (r: string)
    ensures AllDigits(r)
  {
    var t := s[NonDigitLen(s)..];
    t[..DigitLen(t)]
  }

  datatype Chunk = Chunk(text: string, number: string)

  /** A version part as the alternating chunks the program walks through. */
  function ChunksOf(s: string): seq<Chunk> {
    if s == "" then [] else [Chunk(NonDigits(s), Digits(s))] + ChunksOf(Rest(s))
  }

  function CompareChunk(x: Chunk, y: Chunk): int {
    if CompareNonDigit(x.text, y.text) != 0 then CompareNonDigit(x.text, y.text)
    else CompareDigit(x.number, y.number)
  }

  /** Chunk by chunk until one differs; a part that has ended reads as empty chunks. */
  function ComparePart(a: string, b: string): int {
    Lex(CompareChunk, Chunk("", ""), ChunksOf(a), ChunksOf(b), 0)
  }

  /** The number a digit string denotes. */
  function NatOf(s: string): nat
    requires AllDigits(s)
  {
    if s == "" then 0 else 10 * NatOf(s[..|s| - 1]) + DigitValue(s[|s| - 1])
  }

  function DigitValue(c: char): (d: nat)
    requires IsDigit(c)
    ensures d <= 9
  {
    c as int - '0' as int
  }

  const MAX_INT64: int := 0x7FFF_FFFF_FFFF_FFFF

  /** `strconv.Atoi` on a 64-bit platform: an optional sign, then digits, in range. */
  function Atoi(s: string): Option<int> {
    var signed := s != "" && (s[0] == '-' || s[0] == '+');
    var body := if signed then s[1..] else s;
    if body == "" || !AllDigits(body) then None
    else
      var n := if signed && s[0] == '-' then -(NatOf(body) as int) else NatOf(body) as int;
      if -MAX_INT64 - 1 <= n <= MAX_INT64 then Some(n) else None
  }

  datatype Parts = Parts(epoch: int, upstream: string, revision: string)

  function SplitVersion(v: string): Parts {
    var i := IndexOf(v, ':');
    var e := if i >= 0 then Atoi(v[..i]) else None;
    if e.Some? then SplitRevision(e.value, v[i + 1..]) else SplitRevision(0, v)
  }

  function SplitRevision(epoch: int, v: string): Parts {
    var j := LastIndexOf(v, '-');
    if j >= 0 then Parts(epoch, v[..j], v[j + 1..]) else Parts(epoch, v, "")
  }

  function CompareDebVersion(a: string, b: string): int {
    if a == b then 0
    else if a == "" then -1
    else if b == "" then 1
    else
      CompareParts(SplitVersion(a), SplitVersion(b))
  }

  function CompareParts(p: Parts, q: Parts): int {
    if CompareInt(p.epoch, q.epoch) != 0 then CompareInt(p.epoch, q.epoch)
    else if ComparePart(p.upstream, q.upstream) != 0 then ComparePart(p.upstream, q.upstream)
    else ComparePart(p.revision, q.revision)
  }

  // ---- the loops of the program, against those functions ------------------

  method SplitNonDigit(s: string) returns (prefix: string, rest: string)
    ensures prefix + rest == s
    ensures forall i :: 0 <= i < |prefix| ==> !IsDigit(prefix[i])
    ensures rest == "" || IsDigit(rest[0])
    ensures prefix == NonDigits(s) && rest == s[NonDigitLen(s)..]
  {
    var i := 0;
    while i < |s|
      invariant 0 <= i <= NonDigitLen(s)
    {
      if IsDigit(s[i]) {
        return s[..i], s[i..];
      }
      i := i + 1;
    }
    return s, "";
  }

  lemma {:induction false} DigitLenIs(s: string, i: nat)
    requires i < |s| && !IsDigit(s[i]) && i <= DigitLen(s)
    ensures i == DigitLen(s)
  {
    if i > 0 {
      DigitLenIs(s[1..], i - 1);
    }
  }

  method SplitDigit(s: string) returns (prefix: string, rest: string)
    ensures prefix + rest == s
    ensures AllDigits(prefix)
    ensures rest == "" || !IsDigit(rest[0])
    ensures prefix == s[..DigitLen(s)] && rest == s[DigitLen(s)..]
  {
    var i := 0;
    while i < |s|
      invariant 0 <= i <= DigitLen(s)
    {
      if !IsDigit(s[i]) {
        DigitLenIs(s, i);
        return s[..i], s[i..];
      }
      i := i + 1;
    }
    return s, "";
  }

  method CompareNonDigitChunks(a: string, b: string) returns (r: int)
    ensures r == CompareNonDigit(a, b)
  {
    var i := 0;
    while i < |a| || i < |b|
      invariant CompareNonDigit(a, b) == Lex(CompareChar, '\0', a, b, i)
      decreases |a| + |b| - i
    {
      var ca := if i < |a| then CharOrder(a[i]) else CharOrder('\0');
      var cb := if i < |b| then CharOrder(b[i]) else CharOrder('\0');
      if ca != cb {
        return CompareInt(ca, cb);
      }
      i := i + 1;
    }
    return 0;
  }

  method CompareVersionPart(a0: string, b0: string) returns (r: int)
    ensures r == ComparePart(a0, b0)
  {
    var a, b := a0, b0;
    while true
      invariant ComparePart(a0, b0) == ComparePart(a, b)
      decreases |a| + |b|
    {
      var na, ra := SplitNonDigit(a);
      var nb, rb := SplitNonDigit(b);
      var c := CompareNonDigitChunks(na, nb);
      if c != 0 {
        return c;
      }
      var da, ra2 := SplitDigit(ra);
      var db, rb2 := SplitDigit(rb);
      if CompareDigit(da, db) != 0 {
        return CompareDigit(da, db);
      }
      PartUnfold(a, b);
      if ra2 == "" && rb2 == "" {
        return 0;
      }
      a, b := ra2, rb2;
    }
  }

  lemma RevisionIs(epoch: int, v: string)
    ensures var j := LastIndexOf(v, '-');
      SplitRevision(epoch, v) == if j >= 0 then Parts(epoch, v[..j], v[j + 1..]) else Parts(epoch, v, "")
  {
  }

  method SplitDebVersion(version: string) returns (epoch: int, upstream: string, revision: string)
    ensures Parts(epoch, upstream, revision) == SplitVersion(version)
  {
    var v := version;
    epoch := 0;
    hide Atoi, SplitRevision;
    var i := IndexOf(v, ':');
    if i >= 0 {
      var n := Atoi(v[..i]);
      if n.Some? {
        epoch := n.value;
        v := v[i + 1..];
      }
    }
    assert SplitVersion(version) == SplitRevision(epoch, v);
    RevisionIs(epoch, v);
    var j := LastIndexOf(v, '-');
    if j >= 0 {
      return epoch, v[..j], v[j + 1..];
    }
    return epoch, v, "";
  }

  method CompareVersions(a: string, b: string) returns (r: int)
    ensures r == CompareDebVersion(a, b)
  {
    if a == b {
      return 0;
    }
    if a == "" {
      return -1;
    }
    if b == "" {
      return 1;
    }
    var epochA, upstreamA, revA := SplitDebVersion(a);
    var epochB, upstreamB, revB := SplitDebVersion(b);
    if CompareInt(epochA, epochB) != 0 {
      return CompareInt(epochA, epochB);
    }
    var c := CompareVersionPart(upstreamA, upstreamB);
    if c != 0 {
      return c;
    }
    r := CompareVersionPart(revA, revB);
  }

  // ---- digits are numbers -------------------------------------------------

  lemma {:induction false} ZeroPrefix(s: string)
    requires AllDigits(s) && s != "" && s[0] == '0'
    ensures NatOf(s) == NatOf(s[1..])
  {
    if |s| > 1 {
      ZeroPrefix(s[..|s| - 1]);
      assert s[..|s| - 1][1..] == s[1..][..|s| - 2];
    }
  }

  lemma {:induction false} TrimZerosKeepsValue(s: string)
    requires AllDigits(s)
    ensures AllDigits(TrimZeros(s)) && NatOf(TrimZeros(s)) == NatOf(s)
  {
    if s != "" && s[0] == '0' {
      ZeroPrefix(s);
      TrimZerosKeepsValue(s[1..]);
    }
  }

  /** A digit string without a leading zero is worth more than any shorter one. */
  lemma {:induction false} LongerIsGreater(x: string, y: string)
    requires AllDigits(x) && AllDigits(y) && |x| < |y| && y[0] != '0'
    ensures NatOf(x) < NatOf(y)
  {
    var y' := y[..|y| - 1];
    if x == "" {
      if y' != "" {
        LongerIsGreater("", y');
      }
    } else {
      LongerIsGreater(x[..|x| - 1], y');
    }
  }

  lemma {:induction false} CompareSnoc(x: string, y: string, c: char, d: char)
    requires |x| == |y|
    ensures Compare(x + [c], y + [d]) == if Compare(x, y) != 0 then Compare(x, y) else Compare([c], [d])
  {
    if x == "" {
      assert x + [c] == [c] && y + [d] == [d];
    } else {
      assert (x + [c])[1..] == x[1..] + [c] && (y + [d])[1..] == y[1..] + [d];
      CompareSnoc(x[1..], y[1..], c, d);
    }
  }

  lemma {:induction false} SameLengthComparesValues(x: string, y: string)
    requires AllDigits(x) && AllDigits(y) && |x| == |y|
    ensures Compare(x, y) == CompareInt(NatOf(x), NatOf(y))
  {
    if x != "" {
      var n := |x| - 1;
      SameLengthComparesValues(x[..n], y[..n]);
      CompareSnoc(x[..n], y[..n], x[n], y[n]);
      assert x[..n] + [x[n]] == x && y[..n] + [y[n]] == y;
      assert Compare("", "") == 0;
    }
  }

  /** `compareDigit` compares the numbers, whatever the lengths and leading zeros. */
  lemma DigitComparesNumbers(a: string, b: string)
    requires AllDigits(a) && AllDigits(b)
    ensures CompareDigit(a, b) == CompareInt(NatOf(a), NatOf(b))
  {
    TrimZerosKeepsValue(a);
    TrimZerosKeepsValue(b);
    var x, y := TrimZeros(a), TrimZeros(b);
    if |x| < |y| {
      LongerIsGreater(x, y);
    } else if |y| < |x| {
      LongerIsGreater(y, x);
    } else {
      SameLengthComparesValues(x, y);
    }
  }

  // ---- a total preorder ---------------------------------------------------

  lemma CharPreorder()
    ensures Preorder(CompareChar)
  {
  }

  lemma DigitSwap(a: string, b: string)
    ensures CompareDigit(a, b) == -CompareDigit(b, a)
    ensures -1 <= CompareDigit(a, b) <= 1
  {
    CompareSwap(TrimZeros(a), TrimZeros(b));
    hide TrimZeros, Compare;
  }

  lemma DigitChain(a: string, b: string, c: string)
    ensures Chain(CompareDigit(a, b), CompareDigit(b, c), CompareDigit(a, c))
  {
    StringChain(TrimZeros(a), TrimZeros(b), TrimZeros(c));
  }

  lemma StringChain(x: string, y: string, z: string)
    ensures Chain(Compare(x, y), Compare(y, z), Compare(x, z))
  {
    if Compare(x, y) <= 0 && Compare(y, z) <= 0 {
      CompareTransitive(x, y, z);
      CompareEqual(x, y);
      CompareEqual(y, z);
      CompareEqual(x, z);
      CompareSwap(x, y);
    }
  }

  lemma ChunkPreorder()
    ensures Preorder(CompareChunk)
  {
    CharPreorder();
    forall x, y
      ensures -1 <= CompareChunk(x, y) <= 1 && CompareChunk(x, y) == -CompareChunk(y, x)
    {
      LexSwap(CompareChar, '\0', x.text, y.text, 0);
      DigitSwap(x.number, y.number);
    }
    forall x, y, z
      ensures Chain(CompareChunk(x, y), CompareChunk(y, z), CompareChunk(x, z))
    {
      LexChain(CompareChar, '\0', x.text, y.text, z.text, 0);
      DigitChain(x.number, y.number, z.number);
    }
  }

  lemma PartPreorder()
    ensures Preorder(ComparePart)
  {
    ChunkPreorder();
    var pad := Chunk("", "");
    forall a, b
      ensures -1 <= ComparePart(a, b) <= 1 && ComparePart(a, b) == -ComparePart(b, a)
    {
      LexSwap(CompareChunk, pad, ChunksOf(a), ChunksOf(b), 0);
    }
    forall a, b, c
      ensures Chain(ComparePart(a, b), ComparePart(b, c), ComparePart(a, c))
    {
      LexChain(CompareChunk, pad, ChunksOf(a), ChunksOf(b), ChunksOf(c), 0);
    }
  }

  lemma PartsPreorder()
    ensures Preorder(CompareParts)
  {
    PartPreorder();
    forall p: Parts, q: Parts, r: Parts
      ensures Chain(CompareParts(p, q), CompareParts(q, r), CompareParts(p, r))
    {
      assert Chain(ComparePart(p.upstream, q.upstream), ComparePart(q.upstream, r.upstream), ComparePart(p.upstream, r.upstream));
      assert Chain(ComparePart(p.revision, q.revision), ComparePart(q.revision, r.revision), ComparePart(p.revision, r.revision));
    }
  }

  /** `CompareDebVersion` is a total preorder on all strings: the empty string,
      tildes and unparseable epochs included. */
  lemma VersionPreorder()
    ensures Preorder(CompareDebVersion)
  {
    forall a, b
      ensures -1 <= CompareDebVersion(a, b) <= 1 && CompareDebVersion(a, b) == -CompareDebVersion(b, a)
    {
      VersionSwap(a, b);
    }
    forall a, b, c
      ensures Chain(CompareDebVersion(a, b), CompareDebVersion(b, c), CompareDebVersion(a, c))
    {
      VersionChain(a, b, c);
    }
  }

  lemma VersionSwap(a: string, b: string)
    ensures -1 <= CompareDebVersion(a, b) <= 1 && CompareDebVersion(a, b) == -CompareDebVersion(b, a)
  {
    hide SplitVersion;
    PartsSwap(SplitVersion(a), SplitVersion(b));
  }

  lemma PartsSwap(p: Parts, q: Parts)
    ensures -1 <= CompareParts(p, q) <= 1 && CompareParts(p, q) == -CompareParts(q, p)
  {
    PartsPreorder();
  }

  lemma VersionChain(a: string, b: string, c: string)
    ensures Chain(CompareDebVersion(a, b), CompareDebVersion(b, c), CompareDebVersion(a, c))
  {
    PartsPreorder();
    var p, q, r := SplitVersion(a), SplitVersion(b), SplitVersion(c);
    assert CompareParts(p, p) == 0;
    assert CompareParts(p, q) == -CompareParts(q, p);
    assert Chain(CompareParts(p, q), CompareParts(q, r), CompareParts(p, r));
  }

  // ---- agreement with Debian Policy section 5.6.12 ------------------------

  /** The weight Policy gives the byte at the head of what is left of a chunk: a
      tilde is below the end of the part, letters are above it, everything else
      is above the letters. A digit ends the chunk. */
  function PolicyWeight(s: string): int {
    if s == "" || IsDigit(s[0]) || s[0] == '\0' then 0
    else if s[0] == '~' then -1
    else if IsLetter(s[0]) then s[0] as int
    else s[0] as int + 256
  }

  predicate StartsNonDigit(s: string) {
    s != "" && !IsDigit(s[0])
  }

  function SkipNonDigit(s: string): string {
    if StartsNonDigit(s) then s[1..] else s
  }

  /** Policy's algorithm, one byte at a time: while either side has a non-digit,
      compare weights; otherwise compare the numbers the digits denote. */
  function PolicyCompare(a: string, b: string): int
    decreases |a| + |b|
  {
    if StartsNonDigit(a) || StartsNonDigit(b) then
      if PolicyWeight(a) != PolicyWeight(b) then CompareInt(PolicyWeight(a), PolicyWeight(b))
      else PolicyCompare(SkipNonDigit(a), SkipNonDigit(b))
    else if a == "" && b == "" then 0
    else
      var m, n := NatOf(a[..DigitLen(a)]), NatOf(b[..DigitLen(b)]);
      if m != n then CompareInt(m, n)
      else PolicyCompare(a[DigitLen(a)..], b[DigitLen(b)..])
  }

  function AfterNonDigits(s: string): (r: string)
    ensures |r| <= |s|
  {
    s[NonDigitLen(s)..]
  }

  /** What skipping one byte does to the chunk it belongs to. */
  lemma SkipOne(s: string)
    ensures NonDigits(SkipNonDigit(s)) == Tail(NonDigits(s))
    ensures AfterNonDigits(SkipNonDigit(s)) == AfterNonDigits(s)
    ensures At(NonDigits(s), '\0', 0) == if StartsNonDigit(s) then s[0] else '\0'
    ensures NonDigits(s) != "" <==> StartsNonDigit(s)
  {
    if StartsNonDigit(s) {
      assert NonDigitLen(s) == 1 + NonDigitLen(s[1..]);
      assert NonDigits(s)[1..] == NonDigits(s[1..]);
    }
  }

  lemma WeightIsOrder(a: string, b: string)
    requires StartsNonDigit(a) || StartsNonDigit(b)
    ensures CompareInt(PolicyWeight(a), PolicyWeight(b))
         == CompareChar(At(NonDigits(a), '\0', 0), At(NonDigits(b), '\0', 0))
  {
    SkipOne(a);
    SkipOne(b);
  }

  /** Byte by byte, Policy decides a chunk as the program does. */
  lemma {:induction false} PolicyChunk(a: string, b: string)
    ensures var c := CompareNonDigit(NonDigits(a), NonDigits(b));
            PolicyCompare(a, b) == if c != 0 then c else PolicyCompare(AfterNonDigits(a), AfterNonDigits(b))
    decreases |a| + |b|
  {
    SkipOne(a);
    SkipOne(b);
    if StartsNonDigit(a) || StartsNonDigit(b) {
      PolicyChunk(SkipNonDigit(a), SkipNonDigit(b));
      WeightIsOrder(a, b);
      LexTail(CompareChar, '\0', NonDigits(a), NonDigits(b), 0);
    } else {
      assert AfterNonDigits(a) == a && AfterNonDigits(b) == b;
    }
  }

  /** Once no side starts with a non-digit, Policy compares numbers and goes on. */
  lemma PolicyNumber(a: string, b: string)
    ensures var c := CompareInt(NatOf(Digits(a)), NatOf(Digits(b)));
            PolicyCompare(AfterNonDigits(a), AfterNonDigits(b)) == if c != 0 then c else PolicyCompare(Rest(a), Rest(b))
  {
    var x, y := AfterNonDigits(a), AfterNonDigits(b);
    assert !StartsNonDigit(x) && !StartsNonDigit(y);
    if x == "" && y == "" {
      assert Rest(a) == "" && Rest(b) == "" && Digits(a) == "" && Digits(b) == "";
    }
  }

  lemma HeadAndTail(s: string)
    ensures At(ChunksOf(s), Chunk("", ""), 0) == Chunk(NonDigits(s), Digits(s))
    ensures Tail(ChunksOf(s)) == ChunksOf(Rest(s))
  {
    if s != "" {
      assert ChunksOf(s)[1..] == ChunksOf(Rest(s));
    }
  }

  /** A part comparison is its first chunk's, then the remainders'. */
  lemma PartUnfold(a: string, b: string)
    ensures var c := CompareChunk(Chunk(NonDigits(a), Digits(a)), Chunk(NonDigits(b), Digits(b)));
            ComparePart(a, b) == if c != 0 then c else ComparePart(Rest(a), Rest(b))
  {
    var pad := Chunk("", "");
    HeadAndTail(a);
    HeadAndTail(b);
    ChunkPreorder();
    assert CompareChunk(pad, pad) == 0;
    LexUnfold(CompareChunk, pad, ChunksOf(a), ChunksOf(b));
  }

  /** `compareVersionPart` is Policy's comparison on every pair of strings. */
  lemma {:induction false} PartIsPolicy(a: string, b: string)
    ensures ComparePart(a, b) == PolicyCompare(a, b)
    decreases |a| + |b|
  {
    if a != "" || b != "" {
      PolicyChunk(a, b);
      PolicyNumber(a, b);
      DigitComparesNumbers(Digits(a), Digits(b));
      PartUnfold(a, b);
      PartIsPolicy(Rest(a), Rest(b));
    }
  }

  // ---- how a version is cut up and ranked ----------------------------------

  /** A version in its three written parts (Debian Policy section 5.6.12). */
  datatype Written = Written(epoch: Option<string>, upstream: string, revision: Option<string>)
  {
    function WithoutEpoch(): string {
      upstream + if revision.Some? then ['-'] + revision.value else ""
    }

    function Text(): string {
      if epoch.Some? then epoch.value + [':'] + WithoutEpoch() else WithoutEpoch()
    }

    /** An epoch is a number before the first colon; without one, what stands before the
        first colon is none. The revision follows the last hyphen. */
    predicate Plain() {
      && (epoch.Some? ==> ':' !in epoch.value && Atoi(epoch.value).Some?)
      && (epoch.None? ==> ':' !in WithoutEpoch() || Atoi(Before(WithoutEpoch(), ':')).None?)
      && (if revision.Some? then '-' !in revision.value else '-' !in upstream)
    }

    /** No epoch counts as zero, no revision as the empty string. */
    function Number(): int
      requires Plain()
    {
      if epoch.Some? then Atoi(epoch.value).value else 0
    }

    function Revision(): string {
      if revision.Some? then revision.value else ""
    }
  }

  lemma SplitOfRest(v: Written, epoch: int)
    requires v.Plain()
    ensures SplitRevision(epoch, v.WithoutEpoch()) == Parts(epoch, v.upstream, v.Revision())
  {
    if v.revision.Some? {
      LastIndexBefore(v.upstream, '-', v.revision.value);
      FrontAndBack(v.upstream, '-', v.revision.value);
      assert v.WithoutEpoch() == v.upstream + ['-'] + v.revision.value;
    } else {
      assert v.WithoutEpoch() == v.upstream;
    }
    hide LastIndexOf, Atoi, Before;
  }

  lemma EpochOfText(v: Written)
    requires v.Plain()
    ensures var t, i := v.Text(), IndexOf(v.Text(), ':');
      if v.epoch.Some? then i >= 0 && t[..i] == v.epoch.value && t[i + 1..] == v.WithoutEpoch()
      else t == v.WithoutEpoch() && (i < 0 || Atoi(t[..i]).None?)
  {
    var rest := v.WithoutEpoch();
    hide Atoi, Written.WithoutEpoch;
    if v.epoch.Some? {
      var e := v.epoch.value;
      IndexAfter(e, ':', rest);
      FrontAndBack(e, ':', rest);
    } else if IndexOf(rest, ':') >= 0 {
      assert rest[IndexOf(rest, ':')] == ':';
    }
    hide IndexOf;
  }

  lemma FrontAndBack(a: string, c: char, b: string)
    ensures var t := a + [c] + b; t[..|a|] == a && t[|a| + 1..] == b
  {
  }

  lemma SplitOfText(v: Written)
    requires v.Plain()
    ensures SplitVersion(v.Text()) == Parts(v.Number(), v.upstream, v.Revision())
  {
    SplitOfRest(v, v.Number());
    EpochOfText(v);
    hide IndexOf, SplitRevision, Atoi, Written.Text, Written.WithoutEpoch, Written.Revision;
  }

  /** Two versions in their written parts: the epochs decide as numbers, then Policy's
      comparison of the upstream versions, then that of the revisions. */
  lemma VersionsCompareByParts(v: Written, w: Written)
    requires v.Plain() && w.Plain() && v.Text() != "" && w.Text() != ""
    ensures CompareDebVersion(v.Text(), w.Text()) ==
      if v.Number() < w.Number() then -1
      else if v.Number() > w.Number() then 1
      else if PolicyCompare(v.upstream, w.upstream) != 0 then PolicyCompare(v.upstream, w.upstream)
      else PolicyCompare(v.Revision(), w.Revision())
  {
    SplitOfText(v);
    SplitOfText(w);
    PartIsPolicy(v.upstream, w.upstream);
    PartIsPolicy(v.Revision(), w.Revision());
    PartsPreorder();
    hide SplitVersion, PolicyCompare, ComparePart, Atoi, Written.Text, Written.Plain, Written.Number, Written.Revision;
    var p := SplitVersion(v.Text());
    assert CompareParts(p, p) == -CompareParts(p, p);
  }

  /** Every version is written in one such way. */
  lemma EveryVersionIsWritten(s: string) returns (v: Written)
    ensures v.Plain() && v.Text() == s
  {
    var i := IndexOf(s, ':');
    hide Atoi;
    if i >= 0 && Atoi(s[..i]).Some? {
      var u, r := CutRevision(s[i + 1..]);
      v := Written(Some(s[..i]), u, r);
      assert ':' !in s[..i];
      assert s == s[..i] + [':'] + s[i + 1..];
    } else {
      var u, r := CutRevision(s);
      v := Written(None, u, r);
      assert v.WithoutEpoch() == s;
      assert i < 0 ==> ':' !in s;
    }
    hide IndexOf;
  }

  lemma CutRevision(w: string) returns (upstream: string, revision: Option<string>)
    ensures Written(None, upstream, revision).WithoutEpoch() == w
    ensures if revision.Some? then '-' !in revision.value else '-' !in upstream
  {
    var j := LastIndexOf(w, '-');
    if j >= 0 {
      upstream, revision := w[..j], Some(w[j + 1..]);
      assert w == w[..j] + (['-'] + w[j + 1..]);
    } else {
      upstream, revision := w, None;
      assert w + "" == w;
    }
    hide LastIndexOf;
  }

  /** The empty version is below all others. */
  lemma EmptyIsLowest(s: string)
    requires s != ""
    ensures CompareDebVersion("", s) == -1 && CompareDebVersion(s, "") == 1
  {
  }

  /** A string of digits is the number it denotes when it fits into 64 bits; a sign may
      come before it; nothing else is a number. */
  lemma AtoiExactly(s: string, n: int)
    ensures Atoi(s) == Some(n) <==>
      || (s != "" && AllDigits(s) && n == NatOf(s) <= 0x7FFF_FFFF_FFFF_FFFF)
      || (|s| > 1 && s[0] == '+' && AllDigits(s[1..]) && n == NatOf(s[1..]) <= 0x7FFF_FFFF_FFFF_FFFF)
      || (|s| > 1 && s[0] == '-' && AllDigits(s[1..]) && n + NatOf(s[1..]) == 0 && NatOf(s[1..]) <= 0x8000_0000_0000_0000)
  {
    hide NatOf;
    assert s != "" && AllDigits(s) ==> IsDigit(s[0]);
  }
}
