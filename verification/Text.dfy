/** Byte-string helpers shared by every module: the Go `strings` functions the
    program relies on. A `char` stands for one byte of a Go string, so white
    space is the ASCII set. */
module Text {

  datatype Option<+T> = None | Some(value: T)

  ghost predicate Distinct<K>(s: seq<K>) {
    forall i, j :: 0 <= i < j < |s| ==> s[i] != s[j]
  }

  predicate IsSpace(c: char) {
    c == ' ' || c == '\t' || c == '\n' || c == '\U{0B}' || c == '\U{0C}' || c == '\r'
  }

  predicate IsDigit(c: char) {
    '0' <= c <= '9'
  }

  function Lower(s: string): (r: string)
    ensures |r| == |s|
  {
    seq(|s|, i requires 0 <= i < |s| => LowerChar(s[i]))
  }

  function LowerChar(c: char): char {
    if 'A' <= c <= 'Z' then (c as int + 32) as char else c
  }

  // ---- trimming -----------------------------------------------------------

  function TrimLeft(s: string): (r: string)
    ensures |r| <= |s| && (r == "" || !IsSpace(r[0]))
  {
    if s != "" && IsSpace(s[0]) then TrimLeft(s[1..]) else s
  }

  function TrimRight(s: string): (r: string)
    ensures |r| <= |s| && (r == "" || (r[0] == s[0] && !IsSpace(r[|r| - 1])))
  {
    if s != "" && IsSpace(s[|s| - 1]) then TrimRight(s[..|s| - 1]) else s
  }

  /** `strings.TrimSpace`. */
  function Trim(s: string): (r: string)
    ensures Trimmed(r)
  {
    var l := TrimLeft(s);
    TrimRight(l)
  }

  lemma {:induction false} TrimLeftKeepsOut(s: string, c: char)
    requires c !in s
    ensures c !in TrimLeft(s)
    decreases |s|
  {
    if s != "" && IsSpace(s[0]) {
      TrimLeftKeepsOut(s[1..], c);
    }
  }

  lemma {:induction false} TrimRightKeepsOut(s: string, c: char)
    requires c !in s
    ensures c !in TrimRight(s)
    decreases |s|
  {
    if s != "" && IsSpace(s[|s| - 1]) {
      TrimRightKeepsOut(s[..|s| - 1], c);
    }
  }

  lemma TrimKeepsOut(s: string, c: char)
    requires c !in s
    ensures c !in Trim(s)
  {
    TrimLeftKeepsOut(s, c);
    TrimRightKeepsOut(TrimLeft(s), c);
  }

  /** Trimming a string that starts with a visible byte keeps that byte. */
  lemma TrimKeepsFront(s: string)
    requires s == "" || !IsSpace(s[0])
    ensures Trim(s) == "" || Trim(s)[0] == s[0]
  {
  }

  predicate Trimmed(s: string) {
    s == "" || (!IsSpace(s[0]) && !IsSpace(s[|s| - 1]))
  }

  lemma TrimOfTrimmed(s: string)
    requires Trimmed(s)
    ensures Trim(s) == s
  {
  }

  lemma {:induction false} TrimLeftSpaces(c: char, s: string)
    requires IsSpace(c)
    ensures TrimLeft([c] + s) == TrimLeft(s)
  {
    assert ([c] + s)[1..] == s;
  }

  lemma TrimSpacePrefix(c: char, s: string)
    requires IsSpace(c)
    ensures Trim([c] + s) == Trim(s)
  {
    TrimLeftSpaces(c, s);
  }

  lemma {:induction false} TrimLeftSnoc(s: string, c: char)
    requires IsSpace(c)
    ensures TrimLeft(s + [c]) == if TrimLeft(s) == "" then "" else TrimLeft(s) + [c]
  {
    if s == "" {
      assert s + [c] == [c];
      assert [c][1..] == "";
    } else if IsSpace(s[0]) {
      assert (s + [c])[1..] == s[1..] + [c];
      TrimLeftSnoc(s[1..], c);
    }
  }

  lemma TrimSpaceSuffix(s: string, c: char)
    requires IsSpace(c)
    ensures Trim(s + [c]) == Trim(s)
  {
    TrimLeftSnoc(s, c);
    var l := TrimLeft(s);
    assert (l + [c])[..|l|] == l;
  }

  // ---- searching ----------------------------------------------------------

  /** `strings.IndexByte`: the first position of c, or -1. */
  function IndexOf(s: string, c: char): (r: int)
    ensures -1 <= r < |s|
    ensures r >= 0 ==> s[r] == c
    ensures forall j :: 0 <= j < (if r < 0 then |s| else r) ==> s[j] != c
  {
    if s == "" then -1
    else if s[0] == c then 0
    else
      var r := IndexOf(s[1..], c);
      if r < 0 then -1 else r + 1
  }

  /** `strings.LastIndexByte`. */
  function LastIndexOf(s: string, c: char): (r: int)
    ensures -1 <= r < |s|
    ensures r >= 0 ==> s[r] == c
    ensures forall j :: r < j < |s| ==> s[j] != c
  {
    if s == "" then -1
    else if s[|s| - 1] == c then |s| - 1
    else LastIndexOf(s[..|s| - 1], c)
  }

  /** The part of s before the first c, or all of s. */
  function Before(s: string, c: char): (r: string)
    ensures c !in r
  {
    var i := IndexOf(s, c);
    if i < 0 then s else s[..i]
  }

  lemma BeforeKeepsFront(s: string, c: char)
    ensures Before(s, c) == "" || (s != "" && Before(s, c)[0] == s[0])
  {
  }

  lemma BeforeNothing(s: string, c: char)
    requires c !in s
    ensures Before(s, c) == s
  {
  }

  /** `strings.Cut` on a substring: the part before its first occurrence, or all of s. */
  function BeforeSub(s: string, sep: string): (r: string)
    requires sep != ""
    ensures |r| <= |s|
  {
    if |s| < |sep| then s
    else if s[..|sep|] == sep then ""
    else [s[0]] + BeforeSub(s[1..], sep)
  }

  /** What stands before the first c. */
  lemma BeforeAt(a: string, c: char, b: string)
    requires c !in a
    ensures Before(a + [c] + b, c) == a && c in a + [c] + b
  {
    var s := a + [c] + b;
    IndexAfter(a, c, b);
    assert s[..|a|] == a && s[|a|] == c;
    hide IndexOf;
  }

  /** What sep beginning at i says about the bytes there. */
  lemma BeginsAt(s: string, sep: string, i: nat)
    requires i < |s| && sep != ""
    ensures sep <= s[i..] ==> s[i] == sep[0] && (|sep| > 1 ==> i + 1 < |s| && s[i + 1] == sep[1])
  {
    assert forall j :: 0 <= j < |s| - i ==> s[i..][j] == s[i + j];
  }

  /** sep does not begin inside a. */
  predicate FirstAfter(a: string, sep: string, b: string) {
    forall i :: 0 <= i < |a| ==> !(sep <= (a + sep + b)[i..])
  }

  /** What stands before the first sep. */
  lemma {:induction false} BeforeSubAt(a: string, sep: string, b: string)
    requires sep != "" && FirstAfter(a, sep, b)
    ensures BeforeSub(a + sep + b, sep) == a
    decreases |a|
  {
    var s := a + sep + b;
    if a == "" {
      assert s[..|sep|] == sep;
    } else {
      assert s[0..] == s && s[..|sep|] != sep;
      assert s[1..] == a[1..] + sep + b;
      assert forall i :: 0 <= i < |a| - 1 ==> (a[1..] + sep + b)[i..] == s[i + 1..];
      BeforeSubAt(a[1..], sep, b);
    }
  }

  lemma {:induction false} BeforeSubNothing(s: string, sep: string)
    requires sep != "" && forall i :: 0 <= i < |s| ==> !(sep <= s[i..])
    ensures BeforeSub(s, sep) == s
    decreases |s|
  {
    if |s| >= |sep| {
      assert s[0..] == s && s[..|sep|] != sep;
      assert forall i :: 0 <= i < |s| - 1 ==> s[1..][i..] == s[i + 1..];
      BeforeSubNothing(s[1..], sep);
    }
  }

  lemma IndexAfter(a: string, c: char, b: string)
    requires c !in a
    ensures IndexOf(a + [c] + b, c) == |a|
  {
    var s := a + [c] + b;
    assert s[|a|] == c && s[..|a|] == a;
  }

  lemma LastIndexBefore(a: string, c: char, b: string)
    requires c !in b
    ensures LastIndexOf(a + [c] + b, c) == |a|
  {
    hide LastIndexOf;
    var s := a + [c] + b;
    assert s[|a|] == c && s[|a| + 1..] == b;
    forall j | |a| < j < |s|
      ensures s[j] != c
    {
      assert s[j] == b[j - |a| - 1];
    }
  }

  // ---- splitting and joining ----------------------------------------------

  /** `strings.Split` on a single byte. */
  function Split(s: string, c: char): (r: seq<string>)
    ensures |r| > 0
  {
    var i := IndexOf(s, c);
    if i < 0 then [s] else [s[..i]] + Split(s[i + 1..], c)
  }

  lemma {:induction false} SplitParts(s: string, c: char)
    ensures forall p :: p in Split(s, c) ==> c !in p
  {
    var i := IndexOf(s, c);
    if i >= 0 {
      SplitParts(s[i + 1..], c);
    }
  }

  function Join(parts: seq<string>, c: char): string
    requires |parts| > 0
  {
    if |parts| == 1 then parts[0] else parts[0] + [c] + Join(parts[1..], c)
  }

  lemma {:induction false} JoinSplit(s: string, c: char)
    ensures Join(Split(s, c), c) == s
  {
    var i := IndexOf(s, c);
    if i >= 0 {
      var head, tail := s[..i], Split(s[i + 1..], c);
      assert Split(s, c) == [head] + tail && s == head + [c] + s[i + 1..];
      JoinSplit(s[i + 1..], c);
      hide Split, Join, IndexOf;
      JoinFront(head, tail, c);
    }
  }

  lemma JoinFront(first: string, rest: seq<string>, c: char)
    requires rest != []
    ensures Join([first] + rest, c) == first + [c] + Join(rest, c)
  {
    assert ([first] + rest)[1..] == rest;
  }

  lemma SplitFirst(a: string, c: char, b: string)
    requires c !in a
    ensures Split(a + [c] + b, c) == [a] + Split(b, c)
  {
    var s := a + [c] + b;
    IndexAfter(a, c, b);
    assert s[..|a|] == a && s[|a| + 1..] == b;
    hide IndexOf;
  }

  lemma {:induction false} SplitJoin(parts: seq<string>, c: char)
    requires |parts| > 0
    requires forall p :: p in parts ==> c !in p
    ensures Split(Join(parts, c), c) == parts
  {
    assert parts[0] in parts;
    if |parts| > 1 {
      var rest := Join(parts[1..], c);
      SplitJoin(parts[1..], c);
      hide Split;
      SplitFirst(parts[0], c, rest);
    } else {
      assert parts == [parts[0]];
    }
  }

  /** A loop that moves the first element over loses nothing. */
  lemma TakeOver<T>(s: seq<T>, x: T, rest: seq<T>)
    ensures s + ([x] + rest) == (s + [x]) + rest
  {
  }

  // ---- byte order on strings ----------------------------------------------

  /** `strings.Compare`. */
  function Compare(a: string, b: string): (r: int)
    ensures r == -1 || r == 0 || r == 1
  {
    if a == "" then (if b == "" then 0 else -1)
    else if b == "" then 1
    else if a[0] < b[0] then -1
    else if a[0] > b[0] then 1
    else Compare(a[1..], b[1..])
  }

  lemma {:induction false} CompareEqual(a: string, b: string)
    ensures Compare(a, b) == 0 <==> a == b
  {
    if a != "" && b != "" && a[0] == b[0] {
      CompareEqual(a[1..], b[1..]);
      assert a == [a[0]] + a[1..] && b == [b[0]] + b[1..];
    }
  }

  lemma {:induction false} CompareSwap(a: string, b: string)
    ensures Compare(a, b) == -Compare(b, a)
  {
    if a != "" && b != "" {
      CompareSwap(a[1..], b[1..]);
    }
  }

  lemma {:induction false} CompareTransitive(a: string, b: string, c: string)
    requires Compare(a, b) <= 0 && Compare(b, c) <= 0
    ensures Compare(a, c) <= 0
  {
    if a != "" && b != "" && c != "" && a[0] == b[0] == c[0] {
      CompareTransitive(a[1..], b[1..], c[1..]);
    }
  }
}
