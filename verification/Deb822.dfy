/** deb822 stanzas (Debian Policy section 5.1): the streaming parser, the printer
    of one field, and how they undo each other. */
module Deb822 {
  import opened Text

  type Stanza = map<string, string>

  // ---- lines ------------------------------------------------------------------

  /** Without one trailing carriage return. */
  function DropCR(s: string): string {
    if s != "" && s[|s| - 1] == '\r' then s[..|s| - 1] else s
  }

  /** The lines a scanner delivers: newline-terminated, the last one possibly not. */
  function ScanLines(text: string): seq<string> {
    if text == "" then []
    else
      var i := IndexOf(text, '\n');
      if i < 0 then [DropCR(text)] else [DropCR(text[..i])] + ScanLines(text[i + 1..])
  }

  /** Every line followed by a newline. */
  function Unlines(lines: seq<string>): string {
    if lines == [] then "" else Unlines(lines[..|lines| - 1]) + lines[|lines| - 1] + "\n"
  }

  function DropCRs(lines: seq<string>): (r: seq<string>)
    ensures |r| == |lines| && forall i :: 0 <= i < |r| ==> r[i] == DropCR(lines[i])
  {
    if lines == [] then [] else DropCRs(lines[..|lines| - 1]) + [DropCR(lines[|lines| - 1])]
  }

  lemma {:induction false} UnlinesFront(line: string, lines: seq<string>)
    ensures Unlines([line] + lines) == line + "\n" + Unlines(lines)
    decreases |lines|
  {
    if lines == [] {
      assert [line] + [] == [line] && [line][..0] == [];
      assert Unlines([line]) == "" + line + "\n";
    } else {
      var init, last := lines[..|lines| - 1], lines[|lines| - 1];
      assert ([line] + lines)[..|lines|] == [line] + init;
      UnlinesFront(line, init);
    }
  }

  lemma {:induction false} UnlinesAppend(a: seq<string>, b: seq<string>)
    ensures Unlines(a + b) == Unlines(a) + Unlines(b)
  {
    if b == [] {
      assert a + b == a;
    } else {
      var init := b[..|b| - 1];
      assert (a + b)[..|a + b| - 1] == a + init;
      UnlinesAppend(a, init);
    }
  }

  lemma UnlinesOne(line: string)
    ensures Unlines([line]) == line + "\n"
  {
    assert [line][..0] == [];
  }

  lemma NothingScanned()
    ensures ScanLines(Unlines([])) == DropCRs([])
  {
  }

  lemma ScanFront(line: string, rest: string)
    requires '\n' !in line
    ensures ScanLines(line + "\n" + rest) == [DropCR(line)] + ScanLines(rest)
  {
    var text := line + ['\n'] + rest;
    assert line + "\n" + rest == text;
    IndexAfter(line, '\n', rest);
    assert text[..|line|] == line && text[|line| + 1..] == rest;
    hide DropCR, IndexOf;
  }

  /** Scanning printed lines gives the lines back. */
  lemma {:induction false} ScanUnlines(lines: seq<string>)
    requires forall l :: l in lines ==> '\n' !in l
    ensures ScanLines(Unlines(lines)) == DropCRs(lines)
  {
    hide Unlines, DropCR, IndexOf, ScanLines, DropCRs;
    if lines == [] {
      NothingScanned();
    } else {
      var line, rest := lines[0], lines[1..];
      assert lines == [line] + rest && line in lines;
      UnlinesFront(line, rest);
      ScanFront(line, Unlines(rest));
      ScanUnlines(rest);
      DropCRsFront(line, rest);
    }
  }

  // ---- the parser ---------------------------------------------------------------

  /** The parser between two lines: stanzas delivered, the stanza being built, the
      field in flight and its value so far. */
  datatype Parser = Parser(out: seq<Stanza>, stanza: Stanza, field: string, value: string)

  const START: Parser := Parser([], map[], "", "")

  function Flushed(p: Parser): Stanza {
    if p.field != "" then p.stanza[p.field := p.value] else p.stanza
  }

  function Deliver(out: seq<Stanza>, s: Stanza): seq<Stanza> {
    if s == map[] then out else out + [s]
  }

  predicate IsBlank(c: char) {
    c == ' ' || c == '\t'
  }

  /** What a continuation line adds to the value. */
  function Continuation(line: string): string
    requires line != "" && IsBlank(line[0])
  {
    if line == " ." then "\n" else "\n" + line[1..]
  }

  function Step(p: Parser, line: string): Parser {
    if line == "" then Parser(Deliver(p.out, Flushed(p)), map[], "", "")
    else if p.field == "" && line[0] == '#' then p
    else if IsBlank(line[0]) then p.(value := p.value + Continuation(line))
    else
      var i := IndexOf(line, ':');
      if i < 0 then p else Parser(p.out, Flushed(p), line[..i], Trim(line[i + 1..]))
  }

  function Run(p: Parser, lines: seq<string>): Parser {
    if lines == [] then p else Step(Run(p, lines[..|lines| - 1]), lines[|lines| - 1])
  }

  function ParseLines(lines: seq<string>): seq<Stanza> {
    var p := Run(START, lines);
    Deliver(p.out, Flushed(p))
  }

  function Parse(text: string): seq<Stanza> {
    ParseLines(ScanLines(text))
  }

  lemma {:induction false} RunAppend(p: Parser, a: seq<string>, b: seq<string>)
    ensures Run(p, a + b) == Run(Run(p, a), b)
  {
    hide Step;
    if b == [] {
      assert a + b == a;
    } else {
      assert (a + b)[..|a + b| - 1] == a + b[..|b| - 1];
      RunAppend(p, a, b[..|b| - 1]);
    }
  }

  lemma RunOne(p: Parser, line: string)
    ensures Run(p, [line]) == Step(p, line)
  {
    assert [line][..0] == [];
    assert Run(p, []) == p;
    hide Step;
  }

  /** The scanner loop of the program. */
  method ParseStanzas(text: string) returns (out: seq<Stanza>)
    ensures out == Parse(text)
  {
    var lines := ScanLines(text);
    var stanza: Stanza := map[];
    var currentField, currentValue := "", "";
    out := [];
    hide ScanLines, Trim, Run;
    NothingRun(lines);
    var i := 0;
    while i < |lines|
      invariant 0 <= i <= |lines|
      invariant Parser(out, stanza, currentField, currentValue) == Run(START, lines[..i])
    {
      var line := lines[i];
      RunSnoc(lines, i);
      i := i + 1;
      if line == "" {
        if currentField != "" {
          stanza := stanza[currentField := currentValue];
        }
        if stanza != map[] {
          out := out + [stanza];
        }
        stanza, currentField, currentValue := map[], "", "";
        continue;
      }
      if currentField == "" && line[0] == '#' {
        continue;
      }
      if IsBlank(line[0]) {
        currentValue := currentValue + Continuation(line);
        continue;
      }
      var colon := IndexOf(line, ':');
      if colon < 0 {
        continue;
      }
      if currentField != "" {
        stanza := stanza[currentField := currentValue];
      }
      currentField, currentValue := line[..colon], Trim(line[colon + 1..]);
    }
    assert lines[..i] == lines;
    if currentField != "" {
      stanza := stanza[currentField := currentValue];
    }
    if stanza != map[] {
      out := out + [stanza];
    }
  }

  lemma NothingRun(lines: seq<string>)
    ensures Run(START, lines[..0]) == START
  {
  }

  lemma RunSnoc(lines: seq<string>, i: nat)
    requires i < |lines|
    ensures Run(START, lines[..i + 1]) == Step(Run(START, lines[..i]), lines[i])
  {
    assert lines[..i + 1][..i] == lines[..i];
    hide Step;
  }

  // ---- the printer ----------------------------------------------------------------

  function ContinuationLine(l: string): string {
    if l == "" then " ." else " " + l
  }

  function ContinuationLines(ls: seq<string>): (r: seq<string>)
    ensures |r| == |ls| && forall i :: 0 <= i < |r| ==> r[i] == ContinuationLine(ls[i])
  {
    if ls == [] then [] else ContinuationLines(ls[..|ls| - 1]) + [ContinuationLine(ls[|ls| - 1])]
  }

  /** The lines one field is printed as. */
  function FieldLines(field: string, value: string): seq<string> {
    if value == "" then [field + ":"]
    else
      var ls := Split(value, '\n');
      [field + ": " + ls[0]] + ContinuationLines(ls[1..])
  }

  // ---- what a printed value reads back as -------------------------------------------

  /** A later line loses a trailing carriage return; a lone dot is read back as the
      blank-line marker it was printed as. */
  function NormalLine(l: string): string {
    var d := DropCR(l);
    if d == "." then "" else d
  }

  function NormalLines(ls: seq<string>): (r: seq<string>)
    ensures |r| == |ls| && forall i :: 0 <= i < |r| ==> r[i] == NormalLine(ls[i])
  {
    if ls == [] then [] else NormalLines(ls[..|ls| - 1]) + [NormalLine(ls[|ls| - 1])]
  }

  /** A value as it comes back: its first line trimmed, its later lines normal. */
  function Normalise(value: string): string {
    var ls := Split(value, '\n');
    Join([Trim(ls[0])] + NormalLines(ls[1..]), '\n')
  }

  /** A field name the parser can take back. */
  predicate ValidName(field: string) {
    field != "" && ':' !in field && '\n' !in field && !IsBlank(field[0])
  }

  lemma PrintedHeadLine(field: string, first: string)
    requires ValidName(field)
    ensures var line := DropCR(field + ": " + first);
      && line != "" && !IsBlank(line[0]) && IndexOf(line, ':') == |field|
      && Trim(line[|field| + 1..]) == Trim(first) && line[..|field|] == field && line[0] == field[0]
  {
    hide Trim, IndexOf;
    var body := DropCR(first);
    var line := field + [':'] + (" " + body);
    assert DropCR(field + ": " + first) == line;
    IndexAfter(field, ':', " " + body);
    assert line[..|field|] == field && line[|field| + 1..] == " " + body;
    TrimSpacePrefix(' ', body);
    assert [' '] + body == " " + body;
    if body != first {
      assert first == body + ['\r'];
      TrimSpaceSuffix(body, '\r');
    }
  }

  lemma PrintedEmptyLine(field: string)
    requires ValidName(field)
    ensures var line := DropCR(field + ":");
      && line == field + ":" && IndexOf(line, ':') == |field| && line[..|field|] == field && line[|field| + 1..] == ""
  {
    assert field + ":" == field + [':'] + "";
    IndexAfter(field, ':', "");
  }

  /** A printed later line is a continuation line that adds the normal line. */
  lemma PrintedLaterLine(l: string)
    ensures var line := DropCR(ContinuationLine(l));
      && line != "" && line[0] == ' ' && Continuation(line) == "\n" + NormalLine(l)
  {
    var line := DropCR(ContinuationLine(l));
    if l != "" {
      assert line == " " + DropCR(l);
      if DropCR(l) != "." {
        assert line[1..] == DropCR(l);
      }
    }
  }

  lemma LaterSnoc(ls: seq<string>, l: string)
    ensures DropCRs(ContinuationLines(ls + [l])) == DropCRs(ContinuationLines(ls)) + [DropCR(ContinuationLine(l))]
    ensures NormalLines(ls + [l]) == NormalLines(ls) + [NormalLine(l)]
  {
    hide DropCR, ContinuationLine, NormalLine;
    var all := ContinuationLines(ls + [l]);
    assert (ls + [l])[..|ls|] == ls;
    assert all == ContinuationLines(ls) + [ContinuationLine(l)];
    assert all[..|ls|] == ContinuationLines(ls);
  }

  lemma NoLaterLines(p: Parser)
    ensures Run(p, DropCRs(ContinuationLines([]))) == p.(value := p.value + Tail(NormalLines([])))
  {
    assert p.value + "" == p.value;
    hide Step;
  }

  lemma Associative(a: string, b: string, c: string)
    ensures (a + b) + c == a + (b + c)
  {
  }

  lemma RunLast(p: Parser, lines: seq<string>, line: string)
    ensures Run(p, lines + [line]) == Step(Run(p, lines), line)
  {
    assert (lines + [line])[..|lines|] == lines;
    hide Step;
  }

  lemma StepLaterLine(p: Parser, l: string)
    requires p.field != ""
    ensures Step(p, DropCR(ContinuationLine(l))) == p.(value := p.value + ("\n" + NormalLine(l)))
  {
    PrintedLaterLine(l);
    hide NormalLine, ContinuationLine, DropCR, Continuation;
  }

  lemma {:induction false} RunLaterLines(p: Parser, ls: seq<string>)
    requires p.field != ""
    ensures Run(p, DropCRs(ContinuationLines(ls))) == p.(value := p.value + Tail(NormalLines(ls)))
  {
    hide *;
    if ls == [] {
      NoLaterLines(p);
    } else {
      var init, last := ls[..|ls| - 1], ls[|ls| - 1];
      assert ls == init + [last];
      RunLaterLines(p, init);
      LaterSnoc(init, last);
      var q := Run(p, DropCRs(ContinuationLines(init)));
      RunLast(p, DropCRs(ContinuationLines(init)), DropCR(ContinuationLine(last)));
      StepLaterLine(q, last);
      TailSnoc(NormalLines(init), NormalLine(last));
      Associative(p.value, Tail(NormalLines(init)), "\n" + NormalLine(last));
    }
  }

  /** Later lines, each after a newline. */
  function Tail(ls: seq<string>): string {
    if ls == [] then "" else Tail(ls[..|ls| - 1]) + ("\n" + ls[|ls| - 1])
  }

  lemma TailSnoc(ls: seq<string>, l: string)
    ensures Tail(ls + [l]) == Tail(ls) + ("\n" + l) && Tail([]) == ""
  {
    assert (ls + [l])[..|ls|] == ls;
  }

  lemma {:induction false} TailFront(l: string, ls: seq<string>)
    ensures Tail([l] + ls) == "\n" + l + Tail(ls)
    decreases |ls|
  {
    if ls == [] {
      assert [l] + [] == [l];
      TailSnoc([], l);
    } else {
      var init, last := ls[..|ls| - 1], ls[|ls| - 1];
      TailFront(l, init);
      assert [l] + ls == ([l] + init) + [last] && ls == init + [last];
      TailSnoc([l] + init, last);
      TailSnoc(init, last);
      hide Tail;
      var a, b, c := "\n" + l, Tail(init), "\n" + last;
      assert (a + b) + c == a + (b + c);
    }
  }

  lemma {:induction false} JoinIsTail(first: string, ls: seq<string>)
    ensures Join([first] + ls, '\n') == first + Tail(ls)
    decreases |ls|
  {
    assert ([first] + ls)[1..] == ls;
    if ls != [] {
      JoinIsTail(ls[0], ls[1..]);
      TailFront(ls[0], ls[1..]);
      assert [ls[0]] + ls[1..] == ls;
      assert first + ['\n'] + (ls[0] + Tail(ls[1..])) == first + Tail(ls);
    }
  }

  lemma RunEmptyField(p: Parser, field: string)
    requires ValidName(field) && (p.field == "" ==> field[0] != '#')
    ensures Run(p, DropCRs(FieldLines(field, ""))) == Parser(p.out, Flushed(p), field, Normalise(""))
  {
    PrintedEmptyLine(field);
    assert DropCRs([field + ":"]) == [DropCR(field + ":")];
    RunOne(p, DropCR(field + ":"));
    assert Split("", '\n') == [""] && Trim("") == "";
    JoinIsTail("", []);
    assert Normalise("") == "";
    hide Normalise, Split, Join, DropCRs, Run, Flushed;
  }

  lemma RunHeadLine(p: Parser, field: string, first: string)
    requires ValidName(field) && (p.field == "" ==> field[0] != '#')
    ensures Step(p, DropCR(field + ": " + first)) == Parser(p.out, Flushed(p), field, Trim(first))
  {
    hide Trim, IndexOf, Flushed;
    PrintedHeadLine(field, first);
    hide DropCR;
  }

  lemma RunFullField(p: Parser, field: string, first: string, rest: seq<string>)
    requires ValidName(field) && (p.field == "" ==> field[0] != '#')
    ensures Run(p, DropCRs([field + ": " + first] + ContinuationLines(rest)))
         == Parser(p.out, Flushed(p), field, Join([Trim(first)] + NormalLines(rest), '\n'))
  {
    hide Trim, Join, Step, Flushed, DropCR, Run, ContinuationLines, NormalLines, Tail, IndexOf;
    var head, later := field + ": " + first, ContinuationLines(rest);
    RunHeadLine(p, field, first);
    DropCRsFront(head, later);
    RunAppend(p, [DropCR(head)], DropCRs(later));
    RunOne(p, DropCR(head));
    RunLaterLines(Parser(p.out, Flushed(p), field, Trim(first)), rest);
    JoinIsTail(Trim(first), NormalLines(rest));
  }

  lemma DropCRsFront(line: string, lines: seq<string>)
    ensures DropCRs([line] + lines) == [DropCR(line)] + DropCRs(lines)
  {
    hide DropCR;
  }

  /** Parsing a printed field finishes the field before it and leaves this one in
      flight with its normal value, whatever the value was. */
  lemma RunField(p: Parser, field: string, value: string)
    requires ValidName(field) && (p.field == "" ==> field[0] != '#')
    ensures Run(p, DropCRs(FieldLines(field, value))) == Parser(p.out, Flushed(p), field, Normalise(value))
  {
    if value == "" {
      RunEmptyField(p, field);
    } else {
      hide Trim, Split, Join, Flushed, Run, ContinuationLines, NormalLines;
      var ls := Split(value, '\n');
      RunFullField(p, field, ls[0], ls[1..]);
    }
  }

  /** No printed line is blank or holds a newline, so a field never ends a stanza. */
  lemma FieldLinesAreLines(field: string, value: string)
    requires ValidName(field)
    ensures forall l :: l in FieldLines(field, value) ==> l != "" && '\n' !in l && DropCR(l) != ""
  {
    var ls := Split(value, '\n');
    SplitParts(value, '\n');
    if value == "" {
      PrintedEmptyLine(field);
    }
    hide Split, DropCR, ContinuationLine;
    forall l | l in FieldLines(field, value) && value != ""
      ensures l != "" && '\n' !in l && DropCR(l) != ""
    {
      if l == field + ": " + ls[0] {
        assert ls[0] in ls;
        HeadIsLine(field, ls[0]);
      } else {
        var i :| 0 <= i < |ls| - 1 && l == ContinuationLine(ls[1..][i]);
        assert ls[1..][i] == ls[i + 1] && ls[i + 1] in ls;
        LaterIsLine(ls[i + 1]);
      }
    }
  }

  lemma HeadIsLine(field: string, first: string)
    requires ValidName(field) && '\n' !in first
    ensures var l := field + ": " + first; l != "" && '\n' !in l && DropCR(l) != ""
  {
    PrintedHeadLine(field, first);
    hide *;
    NameHasNoNewline(field);
    OutOfBoth(field, ": ", '\n');
    OutOfBoth(field + ": ", first, '\n');
  }

  lemma NameHasNoNewline(field: string)
    requires ValidName(field)
    ensures '\n' !in field && '\n' !in ": "
  {
  }

  lemma OutOfBoth(a: string, b: string, c: char)
    requires c !in a && c !in b
    ensures c !in a + b
  {
  }

  lemma LaterIsLine(line: string)
    requires '\n' !in line
    ensures var l := ContinuationLine(line); l != "" && '\n' !in l && DropCR(l) != ""
  {
    PrintedLaterLine(line);
    hide DropCR;
  }

  /** A value survives printing and parsing exactly when its first line is trimmed
      and no later line is a lone dot or ends in a carriage return. */
  lemma NormalExactly(value: string)
    ensures var ls := Split(value, '\n');
            Normalise(value) == value <==>
              Trim(ls[0]) == ls[0] && forall i :: 0 < i < |ls| ==> ls[i] != "." && DropCR(ls[i]) == ls[i]
  {
    hide Split, Join, Trim, DropCR;
    var ls := Split(value, '\n');
    var ns := [Trim(ls[0])] + NormalLines(ls[1..]);
    JoinSplit(value, '\n');
    NormalLinesAreLines(value);
    SplitJoin(ns, '\n');
    assert Normalise(value) == value <==> ns == ls;
    assert ls == [ls[0]] + ls[1..];
    assert ns == ls <==> Trim(ls[0]) == ls[0] && NormalLines(ls[1..]) == ls[1..];
    NormalLinesExactly(ls[1..]);
    assert forall i :: 0 < i < |ls| ==> ls[i] == ls[1..][i - 1];
  }

  lemma NormalLinesAreLines(value: string)
    ensures var ls := Split(value, '\n');
            forall n :: n in [Trim(ls[0])] + NormalLines(ls[1..]) ==> '\n' !in n
  {
    hide Split, Trim;
    var ls := Split(value, '\n');
    SplitParts(value, '\n');
    forall n | n in [Trim(ls[0])] + NormalLines(ls[1..])
      ensures '\n' !in n
    {
      if n == Trim(ls[0]) {
        assert ls[0] in ls;
        TrimKeepsOut(ls[0], '\n');
      } else {
        var i :| 0 <= i < |ls| - 1 && n == NormalLine(ls[1..][i]);
        assert ls[1..][i] == ls[i + 1] && ls[i + 1] in ls;
      }
    }
  }

  lemma {:induction false} NormalLinesExactly(ls: seq<string>)
    ensures NormalLines(ls) == ls <==> forall i :: 0 <= i < |ls| ==> ls[i] != "." && DropCR(ls[i]) == ls[i]
  {
    if NormalLines(ls) == ls {
      forall i | 0 <= i < |ls|
        ensures ls[i] != "." && DropCR(ls[i]) == ls[i]
      {
        assert NormalLines(ls)[i] == ls[i];
      }
    }
  }

  // ---- what parsing always delivers ---------------------------------------------------

  /** The names in flight or already stored are ones the printer may use. */
  ghost predicate NamesValid(p: Parser) {
    && (p.field == "" || ValidName(p.field))
    && (forall f :: f in p.stanza ==> ValidName(f))
    && (forall s, f :: s in p.out && f in s ==> ValidName(f))
  }

  lemma StepKeepsNames(p: Parser, line: string)
    requires NamesValid(p) && '\n' !in line
    ensures NamesValid(Step(p, line))
  {
    hide Trim, Continuation;
    if line != "" && !IsBlank(line[0]) && IndexOf(line, ':') > 0 {
      var f := line[..IndexOf(line, ':')];
      assert f[0] == line[0];
      assert ValidName(f);
    }
    hide IndexOf;
  }

  lemma {:induction false} RunKeepsNames(lines: seq<string>)
    requires forall l :: l in lines ==> '\n' !in l
    ensures NamesValid(Run(START, lines))
  {
    if lines != [] {
      RunKeepsNames(lines[..|lines| - 1]);
      StepKeepsNames(Run(START, lines[..|lines| - 1]), lines[|lines| - 1]);
      hide Step;
    }
  }

  lemma CutKeepsOut(line: string)
    requires '\n' !in line
    ensures '\n' !in DropCR(line)
  {
  }

  lemma ScanFirst(text: string, i: int)
    requires text != "" && i == IndexOf(text, '\n')
    ensures ScanLines(text) == if i < 0 then [DropCR(text)] else [DropCR(text[..i])] + ScanLines(text[i + 1..])
  {
    hide DropCR, IndexOf;
  }

  lemma CutAtNewline(text: string, i: int)
    requires i == IndexOf(text, '\n')
    ensures '\n' !in if i < 0 then text else text[..i]
  {
    hide IndexOf;
  }

  lemma {:induction false} ScannedLinesAreLines(text: string)
    ensures forall l :: l in ScanLines(text) ==> '\n' !in l
    decreases |text|
  {
    if text == "" {
      NothingScanned();
      assert Unlines([]) == "" && DropCRs([]) == [];
    } else {
      var i := IndexOf(text, '\n');
      ScanFirst(text, i);
      CutAtNewline(text, i);
      hide ScanLines, IndexOf, DropCR;
      if i < 0 {
        CutKeepsOut(text);
      } else {
        CutKeepsOut(text[..i]);
        ScannedLinesAreLines(text[i + 1..]);
      }
    }
  }

  /** Field names of parsed stanzas can always be printed back. */
  lemma ParsedNamesAreValid(text: string)
    ensures forall s, f :: s in Parse(text) && f in s ==> ValidName(f)
  {
    ScannedLinesAreLines(text);
    RunKeepsNames(ScanLines(text));
    hide Run, ScanLines;
  }

  // ---- what any lines are read as ---------------------------------------------------------

  /** What stanzas came before stays in front and changes nothing after it. */
  lemma {:induction false} EarlierStanzasStay(out: seq<Stanza>, p: Parser, lines: seq<string>)
    ensures Run(p.(out := out + p.out), lines) == Run(p, lines).(out := out + Run(p, lines).out)
  {
    if lines != [] {
      EarlierStanzasStay(out, p, lines[..|lines| - 1]);
      StepKeepsEarlier(out, Run(p, lines[..|lines| - 1]), lines[|lines| - 1]);
      hide Step;
    }
  }

  lemma StepKeepsEarlier(out: seq<Stanza>, p: Parser, line: string)
    ensures Step(p.(out := out + p.out), line) == Step(p, line).(out := out + Step(p, line).out)
  {
    hide Trim, IndexOf, Continuation;
    assert out + (p.out + [Flushed(p)]) == (out + p.out) + [Flushed(p)];
  }

  /** A blank line separates: what follows it is read as if it stood alone. */
  lemma BlankLineSeparates(a: seq<string>, b: seq<string>)
    ensures ParseLines(a + [""] + b) == ParseLines(a) + ParseLines(b)
  {
    var p := Run(START, a);
    RunAppend(START, a + [""], b);
    RunLast(START, a, "");
    assert Step(p, "") == START.(out := ParseLines(a) + START.out);
    EarlierStanzasStay(ParseLines(a), START, b);
    var q := Run(START, b);
    assert Deliver(ParseLines(a) + q.out, Flushed(q)) == ParseLines(a) + Deliver(q.out, Flushed(q));
    hide Run, Step, Flushed;
  }

  /** A line without a colon that does not start with a blank is skipped anywhere. */
  lemma StrayLineIsSkipped(a: seq<string>, line: string, b: seq<string>)
    requires line != "" && line[0] != ' ' && line[0] != '\t' && ':' !in line
    ensures ParseLines(a + [line] + b) == ParseLines(a + b)
  {
    assert Step(Run(START, a), line) == Run(START, a);
    RunAppend(START, a + [line], b);
    RunAppend(START, a, b);
    RunLast(START, a, line);
    hide Run, Step;
  }

  /** A comment is skipped at the start and after a blank line, whatever it says. */
  lemma CommentIsSkipped(a: seq<string>, line: string, b: seq<string>)
    requires line != "" && line[0] == '#' && (a == [] || a[|a| - 1] == "")
    ensures ParseLines(a + [line] + b) == ParseLines(a + b)
  {
    if a != [] {
      RunLast(START, a[..|a| - 1], "");
      assert a == a[..|a| - 1] + [""];
    }
    assert Run(START, a).field == "";
    assert Step(Run(START, a), line) == Run(START, a);
    RunAppend(START, a + [line], b);
    RunAppend(START, a, b);
    RunLast(START, a, line);
    hide Run, Step;
  }

  /** A line that carries on the field before it. */
  predicate CarriesOn(line: string) {
    line != "" && (line[0] == ' ' || line[0] == '\t')
  }

  /** The line of the value it stands for. */
  function ValueLine(line: string): string {
    if line == "" || line == " ." then "" else line[1..]
  }

  function ValueLines(lines: seq<string>): (r: seq<string>)
    ensures |r| == |lines| && forall i :: 0 <= i < |r| ==> r[i] == ValueLine(lines[i])
  {
    if lines == [] then [] else ValueLines(lines[..|lines| - 1]) + [ValueLine(lines[|lines| - 1])]
  }

  /** Any field line starts its field with the trimmed text after the first colon, and
      each line that carries on adds a line without its first character, " ." an
      empty one. Inside a stanza this holds of a line that starts with '#' too. */
  lemma AnyFieldIsRead(p: Parser, name: string, text: string, later: seq<string>)
    requires name != "" && !CarriesOn(name) && ':' !in name && (p.field == "" ==> name[0] != '#')
    requires forall l :: l in later ==> CarriesOn(l)
    ensures Run(p, [name + ":" + text] + later)
         == Parser(p.out, Flushed(p), name, Join([Trim(text)] + ValueLines(later), '\n'))
  {
    var head := name + ":" + text;
    assert head == name + [':'] + text;
    IndexAfter(name, ':', text);
    assert head[..|name|] == name && head[|name| + 1..] == text && head[0] == name[0];
    assert Step(p, head) == Parser(p.out, Flushed(p), name, Trim(text));
    RunAppend(p, [head], later);
    RunOne(p, head);
    RunCarriedOn(Step(p, head), later);
    JoinIsTail(Trim(text), ValueLines(later));
    hide *;
  }

  lemma {:induction false} RunCarriedOn(p: Parser, later: seq<string>)
    requires p.field != "" && forall l :: l in later ==> CarriesOn(l)
    ensures Run(p, later) == p.(value := p.value + Tail(ValueLines(later)))
  {
    hide *;
    if later == [] {
      NothingCarriedOn(p);
    } else {
      var init, last := later[..|later| - 1], later[|later| - 1];
      assert later == init + [last] && last in later;
      RunCarriedOn(p, init);
      RunLast(p, init, last);
      StepCarriesOn(Run(p, init), last);
      ValueLinesSnoc(init, last);
      TailSnoc(ValueLines(init), ValueLine(last));
      Associative(p.value, Tail(ValueLines(init)), "\n" + ValueLine(last));
    }
  }

  lemma NothingCarriedOn(p: Parser)
    ensures Run(p, []) == p.(value := p.value + Tail(ValueLines([])))
  {
    assert p.value + "" == p.value;
  }

  lemma ValueLinesSnoc(lines: seq<string>, line: string)
    ensures ValueLines(lines + [line]) == ValueLines(lines) + [ValueLine(line)]
  {
    assert (lines + [line])[..|lines|] == lines;
    hide ValueLine;
  }

  lemma StepCarriesOn(p: Parser, line: string)
    requires p.field != "" && CarriesOn(line)
    ensures Step(p, line) == p.(value := p.value + ("\n" + ValueLine(line)))
  {
    hide Trim, IndexOf;
  }
}
