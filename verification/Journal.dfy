/** The append-only publication journal of one run, down to its bytes. */
module Journal {
  import opened Wrappers
  import opened JournalText

  /** Why a history is refused. */
  datatype Corrupt = Unreadable(line: nat) | Missing(sequence: nat)

  type Reader = string -> Option<Entry>

  /** What is asked of the library that reads a line back: it understands every entry the model accepts, blanks
      before it or not, and it takes nothing that is not one whole object holding such an entry. */
  ghost predicate Faithful(read: Reader, types: FieldTypes) {
    (forall w, e :: JsonBlanks(w) && Accepted(e, types) ==> read(w + EntryText(e)) == Some(e))
    && (forall t :: read(t).Some? ==> Accepted(read(t).value, types) && ScanFrom(Before, t) == After)
  }

  ghost predicate Writes(w: string, e: Entry, t: string, types: FieldTypes) {
    JsonBlanks(w) && Accepted(e, types) && t == w + EntryText(e)
  }

  /** There are such readers, whatever the field types are, because no two entries share a text. */
  lemma FaithfulReaderExists(types: FieldTypes)
    ensures exists read: Reader :: Faithful(read, types)
  {
    hide EntryText, ScanFrom, Accepted;
    ghost var read: Reader := t => if w, e :| Writes(w, e, t, types) then Some(e) else None;
    forall w, e | JsonBlanks(w) && Accepted(e, types)
      ensures read(w + EntryText(e)) == Some(e)
    {
      assert Writes(w, e, w + EntryText(e), types);
      forall v, d | Writes(v, d, w + EntryText(e), types)
        ensures d == e
      {
        SameAfterBlanks(v, d, w, e);
      }
    }
    forall t | read(t).Some?
      ensures Accepted(read(t).value, types) && ScanFrom(Before, t) == After
    {
      var w, e :| Writes(w, e, t, types) && read(t) == Some(e);
      EntryTextCloses(e);
      ScanBlanks(w);
      ScanConcat(Before, w, EntryText(e));
    }
    assert Faithful(read, types);
  }

  lemma SameAfterBlanks(v: string, d: Entry, w: string, e: Entry)
    requires JsonBlanks(v) && JsonBlanks(w) && v + EntryText(d) == w + EntryText(e)
    ensures d == e
  {
    hide EntryText;
    EntryTextOneLine(d);
    EntryTextOneLine(e);
    var t := v + EntryText(d);
    assert t[|v|] == '{' && t[|w|] == '{';
    assert forall i :: 0 <= i < |v| ==> t[i] == v[i];
    assert forall i :: 0 <= i < |w| ==> t[i] == w[i];
    assert |v| == |w|;
    assert t[|v|..] == EntryText(d) && t[|w|..] == EntryText(e);
    EntryTextInjective(d, e);
  }

  // ---- Lines ----------------------------------------------------------------

  predicate LineBreak(c: char) { c == '\n' || c == '\r' }

  function FirstBreak(raw: string): (i: nat)
    ensures i <= |raw|
    ensures i < |raw| ==> LineBreak(raw[i])
    ensures forall j :: 0 <= j < i ==> !LineBreak(raw[j])
  {
    if raw == "" || LineBreak(raw[0]) then 0 else 1 + FirstBreak(raw[1..])
  }

  /** Where the line after the first one starts. */
  function NextLine(raw: string): (i: nat)
    requires raw != ""
    ensures 0 < i <= |raw|
  {
    var i := FirstBreak(raw);
    if i == |raw| then i
    else if raw[i] == '\r' && i + 1 < |raw| && raw[i + 1] == '\n' then i + 2
    else i + 1
  }

  /** bytes.splitlines() */
  function Lines(raw: string): seq<string>
    decreases |raw|
  {
    if raw == "" then [] else [raw[..FirstBreak(raw)]] + Lines(raw[NextLine(raw)..])
  }

  /** Whether the last line has its line break. */
  predicate Finished(raw: string) { raw != "" ==> LineBreak(raw[|raw| - 1]) }

  lemma {:induction false} LinesConcat(a: string, b: string)
    requires Finished(a) && (b != "" ==> b[0] != '\n')
    ensures Lines(a + b) == Lines(a) + Lines(b)
    decreases |a|
  {
    hide Lines, FirstBreak, NextLine, Finished;
    if a == "" {
      assert a + b == b;
      LinesOfNothing();
    } else {
      NextLineConcat(a, b);
      FirstLine(a);
      FirstLine(a + b);
      assert (a + b)[NextLine(a)..] == a[NextLine(a)..] + b;
      LinesConcat(a[NextLine(a)..], b);
      assert (a + b)[..FirstBreak(a)] == a[..FirstBreak(a)];
    }
  }

  lemma LinesOfNothing()
    ensures Lines("") == []
  {
  }

  lemma FirstLine(raw: string)
    requires raw != ""
    ensures Lines(raw) == [raw[..FirstBreak(raw)]] + Lines(raw[NextLine(raw)..])
  {
  }

  lemma NextLineConcat(a: string, b: string)
    requires a != "" && Finished(a) && (b != "" ==> b[0] != '\n')
    ensures FirstBreak(a + b) == FirstBreak(a) && NextLine(a + b) == NextLine(a) && Finished(a[NextLine(a)..])
  {
    var i := FirstBreak(a);
    assert (a + b)[..i] == a[..i];
    FirstBreakAt(a + b, i);
  }

  lemma FirstBreakAt(raw: string, i: nat)
    requires i <= |raw| && OneLine(raw[..i]) && (i < |raw| ==> LineBreak(raw[i]))
    ensures FirstBreak(raw) == i
  {
    assert forall j :: 0 <= j < i ==> raw[..i][j] == raw[j];
    assert FirstBreak(raw) >= i;
  }

  /** What may stand behind a line: a line feed, a carriage return, both, or at the very end nothing. */
  predicate EndsLine(line: string, end: string, rest: string) {
    end == "\n" || end == "\r\n" || (end == "\r" && (rest == "" || rest[0] != '\n')) || (end == "" && rest == "" && line != "")
  }

  /** The lines, put together again with their ends, are the text. */
  ghost predicate SplitsInto(raw: string, lines: seq<string>)
    decreases |lines|
  {
    if lines == [] then raw == ""
    else OneLine(lines[0])
         && exists end, rest :: EndsLine(lines[0], end, rest) && raw == lines[0] + end + rest && SplitsInto(rest, lines[1..])
  }

  /** There is one way to split a text into lines, and it is this one. */
  lemma {:induction false} LinesExactly(raw: string, lines: seq<string>)
    ensures SplitsInto(raw, lines) <==> lines == Lines(raw)
    decreases |raw|
  {
    hide FirstBreak, NextLine, OneLine;
    if raw != "" {
      LineEnds(raw);
      var line, end, rest := raw[..FirstBreak(raw)], raw[FirstBreak(raw)..NextLine(raw)], raw[NextLine(raw)..];
      FirstLine(raw);
      if lines != [] {
        LinesExactly(rest, lines[1..]);
        forall e, r | OneLine(lines[0]) && EndsLine(lines[0], e, r) && raw == lines[0] + e + r
          ensures lines[0] == line && r == rest
        {
          OneEnd(raw, lines[0], e, r);
        }
        assert lines == [lines[0]] + lines[1..];
      }
    } else if lines != [] {
      assert forall e, r :: raw == lines[0] + e + r ==> lines[0] == "" && e == "" && r == "";
    }
  }

  lemma LineEnds(raw: string)
    requires raw != ""
    ensures FirstBreak(raw) <= NextLine(raw) && OneLine(raw[..FirstBreak(raw)])
    ensures EndsLine(raw[..FirstBreak(raw)], raw[FirstBreak(raw)..NextLine(raw)], raw[NextLine(raw)..])
    ensures raw == raw[..FirstBreak(raw)] + raw[FirstBreak(raw)..NextLine(raw)] + raw[NextLine(raw)..]
  {
    var i, n := FirstBreak(raw), NextLine(raw);
    assert OneLine(raw[..i]) by {
      assert forall j :: 0 <= j < i ==> raw[..i][j] == raw[j];
    }
    EndAt(raw, i, n);
    hide OneLine, EndsLine, FirstBreak, NextLine;
    InThree(raw, i, n);
  }

  lemma EndAt(raw: string, i: nat, n: nat)
    requires raw != "" && i == FirstBreak(raw) && n == NextLine(raw)
    ensures i <= n && EndsLine(raw[..i], raw[i..n], raw[n..])
  {
    var end := raw[i..n];
    hide FirstBreak;
    assert n < |raw| ==> raw[n..][0] == raw[n];
    assert |end| == n - i && forall j :: 0 <= j < n - i ==> end[j] == raw[i + j];
  }

  lemma InThree(raw: string, i: nat, n: nat)
    requires i <= n <= |raw|
    ensures raw == raw[..i] + raw[i..n] + raw[n..]
  {
  }

  lemma OneEnd(raw: string, line: string, end: string, rest: string)
    requires OneLine(line) && EndsLine(line, end, rest) && raw == line + end + rest && raw != ""
    ensures line == raw[..FirstBreak(raw)] && rest == raw[NextLine(raw)..]
  {
    assert raw[..|line|] == line;
    assert raw[|line|..] == end + rest;
    assert end != "" ==> raw[|line|] == end[0];
    FirstBreakAt(raw, |line|);
    assert |line| + |end| < |raw| ==> raw[|line| + |end|] == rest[0];
    assert NextLine(raw) == |line| + |end|;
  }

  /** One line, with its break or still without it. */
  lemma LinesOfOne(t: string)
    requires OneLine(t) && t != ""
    ensures Lines(t) == [t] && Lines(t + "\n") == [t]
  {
    FirstBreakAt(t, |t|);
    assert t[..|t|] == t && t[|t|..] == "";
    assert (t + "\n")[..|t|] == t;
    FirstBreakAt(t + "\n", |t|);
    assert (t + "\n")[|t| + 1..] == "";
  }

  /** Where the unfinished last line starts. */
  function Cut(raw: string): (i: nat)
    ensures i <= |raw| && Finished(raw[..i]) && OneLine(raw[i..])
  {
    if Finished(raw) then |raw|
    else
      var init := raw[..|raw| - 1];
      assert forall j | 0 <= j <= |init| :: raw[..j] == init[..j] && raw[j..] == init[j..] + [raw[|init|]];
      Cut(init)
  }

  // ---- Reading --------------------------------------------------------------

  /** bytes.strip() is empty. */
  predicate Blank(line: string) {
    forall i :: 0 <= i < |line| ==> line[i] in " \t\n\r" || line[i] as int == 11 || line[i] as int == 12
  }

  function ReadFrom(lines: seq<string>, position: nat, entries: seq<Entry>, read: Reader): Result<seq<Entry>, Corrupt>
    decreases |lines|
  {
    if lines == [] then Ok(entries)
    else if Blank(lines[0]) then ReadFrom(lines[1..], position + 1, entries, read)
    else match read(lines[0])
      case None => Err(Unreadable(position))
      case Some(e) =>
        if e.sequence != |entries| then Err(Missing(e.sequence))
        else ReadFrom(lines[1..], position + 1, entries + [e], read)
  }

  function Read(raw: string, read: Reader): Result<seq<Entry>, Corrupt> { ReadFrom(Lines(raw), 0, [], read) }

  lemma {:induction false} ReadFromConcat(a: seq<string>, b: seq<string>, position: nat, entries: seq<Entry>, read: Reader)
    ensures ReadFrom(a + b, position, entries, read)
         == match ReadFrom(a, position, entries, read)
            case Err(c) => Err(c)
            case Ok(es) => ReadFrom(b, position + |a|, es, read)
    decreases |a|
  {
    if a == [] {
      assert a + b == b;
    } else {
      assert (a + b)[1..] == a[1..] + b;
      if Blank(a[0]) {
        ReadFromConcat(a[1..], b, position + 1, entries, read);
      } else if read(a[0]).Some? && read(a[0]).value.sequence == |entries| {
        ReadFromConcat(a[1..], b, position + 1, entries + [read(a[0]).value], read);
      }
    }
  }

  /** A readable journal numbers its entries from zero, one by one. */
  lemma {:induction false} ReadIsDense(lines: seq<string>, position: nat, entries: seq<Entry>, read: Reader)
    requires forall i :: 0 <= i < |entries| ==> entries[i].sequence == i
    ensures var r := ReadFrom(lines, position, entries, read);
            r.Ok? ==> entries <= r.value && forall i :: 0 <= i < |r.value| ==> r.value[i].sequence == i
    decreases |lines|
  {
    if lines != [] {
      if Blank(lines[0]) {
        ReadIsDense(lines[1..], position + 1, entries, read);
      } else if read(lines[0]).Some? && read(lines[0]).value.sequence == |entries| {
        ReadIsDense(lines[1..], position + 1, entries + [read(lines[0]).value], read);
      }
    }
  }

  /** What is already unreadable stays so, whatever is written after it. */
  lemma CorruptStays(raw: string, more: string, read: Reader)
    requires Finished(raw) && (more != "" ==> more[0] != '\n')
    requires Read(raw, read).Err?
    ensures Read(raw + more, read) == Read(raw, read)
  {
    LinesConcat(raw, more);
    ReadFromConcat(Lines(raw), Lines(more), 0, [], read);
  }

  // ---- Appending ------------------------------------------------------------

  function Line(e: Entry): string { EntryText(e) + "\n" }

  /** Whether an append starts a line of its own, but for blanks that JSON passes over. */
  predicate Appendable(raw: string) { JsonBlanks(raw[Cut(raw)..]) }

  lemma FinishedIsAppendable(raw: string)
    ensures Finished(raw) ==> Cut(raw) == |raw| && Appendable(raw)
  {
  }

  /** One more line, finished or not, after finished ones. */
  lemma LineAfter(head: string, line: string, entries: seq<Entry>, read: Reader)
    requires Finished(head) && OneLine(line) && line != "" && Read(head, read) == Ok(entries)
    ensures Lines(head + line) == Lines(head) + [line] == Lines(head + (line + "\n"))
    ensures Read(head + line, read) == Read(head + (line + "\n"), read)
         == if Blank(line) then Ok(entries)
            else match read(line)
              case None => Err(Unreadable(|Lines(head)|))
              case Some(e) => if e.sequence != |entries| then Err(Missing(e.sequence)) else Ok(entries + [e])
  {
    hide Lines, Blank, Finished;
    LinesOfOne(line);
    LinesConcat(head, line);
    LinesConcat(head, line + "\n");
    ReadFromConcat(Lines(head), [line], 0, [], read);
    assert [line][1..] == [];
  }

  /** A file is its finished lines and what follows them, and reads as far as those do. */
  lemma HeadReads(raw: string, read: Reader)
    requires Read(raw, read).Ok?
    ensures var head, tail := raw[..Cut(raw)], raw[Cut(raw)..];
            raw == head + tail && Finished(head) && OneLine(tail) && Read(head, read).Ok?
    ensures Blank(raw[Cut(raw)..]) ==> Read(raw, read) == Read(raw[..Cut(raw)], read)
    ensures !Blank(raw[Cut(raw)..]) ==> read(raw[Cut(raw)..]).Some?
  {
    hide Lines, Blank, Finished, Cut;
    var head, tail := raw[..Cut(raw)], raw[Cut(raw)..];
    assert raw == head + tail;
    if tail == "" {
      assert raw == head;
      NothingIsBlank();
    } else {
      LinesOfOne(tail);
      LinesConcat(head, tail);
      ReadFromConcat(Lines(head), [tail], 0, [], read);
      assert [tail][1..] == [];
    }
  }

  lemma NothingIsBlank()
    ensures Blank("")
  {
  }

  /** The line an append has produced after k bytes, over whatever the unfinished last line held. */
  function Grown(tail: string, e: Entry, k: nat): string
    requires 0 < k <= |Line(e)|
  {
    tail + if k == |Line(e)| then EntryText(e) else Line(e)[..k]
  }

  lemma GrownShape(tail: string, e: Entry, k: nat)
    requires OneLine(tail) && 0 < k <= |Line(e)|
    ensures var line := Grown(tail, e, k);
            OneLine(line) && tail < line && line[|tail|] == '{' && !Blank(line)
  {
    hide EntryText, Blank;
    EntryTextOneLine(e);
    var line := Grown(tail, e, k);
    BraceIsNoBlank(line, |tail|);
  }

  lemma BraceIsNoBlank(line: string, i: nat)
    requires i < |line| && line[i] == '{'
    ensures !Blank(line)
  {
  }

  lemma GrownLine(raw: string, e: Entry, k: nat)
    requires 0 < k <= |Line(e)|
    ensures var head, line := raw[..Cut(raw)], Grown(raw[Cut(raw)..], e, k);
            raw + Line(e)[..k] == (if k == |Line(e)| then head + (line + "\n") else head + line)
  {
    hide EntryText, Cut;
    var head, tail := raw[..Cut(raw)], raw[Cut(raw)..];
    assert raw == head + tail;
    if k == |Line(e)| {
      assert Line(e)[..k] == EntryText(e) + "\n";
      Regroup(head, tail, EntryText(e), "\n");
    } else {
      Regroup(head, tail, Line(e)[..k], "");
    }
  }

  lemma Regroup(a: string, b: string, c: string, d: string)
    ensures a + b + c == a + (b + c)
    ensures a + b + (c + d) == a + (b + c + d)
  {
  }

  /** An append that dies after k bytes: nothing written, a torn line that is refused, or the entry, which counts from
      its closing brace on. */
  lemma CrashOutcome(raw: string, es: seq<Entry>, e: Entry, k: nat, read: Reader, types: FieldTypes)
    requires Faithful(read, types) && Accepted(e, types)
    requires Appendable(raw) && Read(raw, read) == Ok(es)
    requires k <= |Line(e)|
    ensures Read(raw + Line(e)[..k], read)
         == if k == 0 then Ok(es)
            else if k < |EntryText(e)| then Err(Unreadable(|Lines(raw[..Cut(raw)])|))
            else if e.sequence == |es| then Ok(es + [e])
            else Err(Missing(e.sequence))
    ensures Finished(raw + Line(e)[..k]) <==> k == |Line(e)| || (k == 0 && Finished(raw))
  {
    hide Read, Lines, Blank, Cut, EntryText, Accepted, ScanFrom;
    if k == 0 {
      assert raw + Line(e)[..k] == raw;
    } else {
      HeadReads(raw, read);
      BlanksAreBlank(raw[Cut(raw)..]);
      GrownLine(raw, e, k);
      GrownShape(raw[Cut(raw)..], e, k);
      var line := Grown(raw[Cut(raw)..], e, k);
      LineAfter(raw[..Cut(raw)], line, es, read);
      GrownReads(raw[Cut(raw)..], e, k, read, types);
    }
  }

  lemma BlanksAreBlank(w: string)
    requires JsonBlanks(w)
    ensures Blank(w)
  {
  }

  lemma GrownReads(w: string, e: Entry, k: nat, read: Reader, types: FieldTypes)
    requires Faithful(read, types) && Accepted(e, types) && JsonBlanks(w) && 0 < k <= |Line(e)|
    ensures read(Grown(w, e, k)) == if k < |EntryText(e)| then None else Some(e)
  {
    hide EntryText, ScanFrom, Accepted;
    EntryTextCloses(e);
    if k < |EntryText(e)| {
      var part := EntryText(e)[..k];
      assert Line(e)[..k] == part;
      ScanBlanks(w);
      ScanConcat(Before, w, part);
      assert ScanFrom(Before, Grown(w, e, k)).Inside?;
    } else {
      assert k == |EntryText(e)| ==> Line(e)[..k] == EntryText(e);
      assert Grown(w, e, k) == w + EntryText(e);
    }
  }

  /** An unfinished last line that holds anything more swallows the start of the next append, and the two are one
      unreadable line. */
  lemma GluedIsCorrupt(raw: string, e: Entry, k: nat, read: Reader, types: FieldTypes)
    requires Faithful(read, types) && !Appendable(raw)
    requires Read(raw, read).Ok? && 0 < k <= |Line(e)|
    ensures Read(raw + Line(e)[..k], read) == Err(Unreadable(|Lines(raw[..Cut(raw)])|))
  {
    hide Read, Lines, Cut, EntryText, Accepted, ScanFrom, Blank;
    HeadReads(raw, read);
    GrownLine(raw, e, k);
    GrownShape(raw[Cut(raw)..], e, k);
    var tail, line := raw[Cut(raw)..], Grown(raw[Cut(raw)..], e, k);
    LineAfter(raw[..Cut(raw)], line, Read(raw[..Cut(raw)], read).value, read);
    ScanBreaks(tail, line, read, types);
  }

  lemma ScanBreaks(tail: string, line: string, read: Reader, types: FieldTypes)
    requires Faithful(read, types) && tail < line && line[|tail|] == '{' && !JsonBlanks(tail)
    requires !Blank(tail) ==> read(tail).Some?
    ensures read(line).None?
  {
    hide Accepted, ScanFrom;
    var rest := line[|tail|..];
    assert line == tail + rest && rest[0] == '{';
    ScanConcat(Before, tail, rest);
    if Blank(tail) {
      ScanBlanks(tail);
      BrokenStays(rest);
    } else {
      AfterBrace(rest);
    }
    assert ScanFrom(Before, line) == Broken;
  }

  lemma AfterBrace(rest: string)
    requires rest != "" && rest[0] == '{'
    ensures ScanFrom(After, rest) == Broken
  {
    BrokenStays(rest[1..]);
  }

  /** Reading after an append gives the old entries and the new one exactly when the file ended with a line break, or
      held nothing but JSON blanks after its last one, and the new sequence is the number of entries. */
  lemma ReadAfterAppend(raw: string, es: seq<Entry>, e: Entry, read: Reader, types: FieldTypes)
    requires Faithful(read, types) && Accepted(e, types) && Read(raw, read) == Ok(es)
    ensures Read(raw + Line(e), read) == Ok(es + [e]) <==> Appendable(raw) && e.sequence == |es|
    ensures !(Appendable(raw) && e.sequence == |es|) ==> Read(raw + Line(e), read).Err?
  {
    hide Read, EntryText, Appendable, Accepted, Faithful;
    assert Line(e)[..|Line(e)|] == Line(e);
    if Appendable(raw) {
      CrashOutcome(raw, es, e, |Line(e)|, read, types);
    } else {
      GluedIsCorrupt(raw, e, |Line(e)|, read, types);
    }
  }

  /** A crash one byte short of a whole append is read back without complaint, and ruins the append after it. */
  lemma LostLineBreak(raw: string, es: seq<Entry>, d: Entry, e: Entry, read: Reader, types: FieldTypes)
    requires Faithful(read, types) && Accepted(d, types) && Accepted(e, types)
    requires Appendable(raw) && Read(raw, read) == Ok(es) && d.sequence == |es| && e.sequence == |es| + 1
    ensures Read(raw + EntryText(d), read) == Ok(es + [d])
    ensures Read(raw + EntryText(d) + Line(e), read).Err?
  {
    hide Read, EntryText, Appendable, Accepted, Faithful;
    EntryTextOneLine(d);
    assert Line(d)[..|EntryText(d)|] == EntryText(d);
    CrashOutcome(raw, es, d, |EntryText(d)|, read, types);
    BraceAtEnd(raw, EntryText(d));
    ReadAfterAppend(raw + EntryText(d), es + [d], e, read, types);
  }

  /** A last line with a brace in it is not one to append to. */
  lemma BraceAtEnd(raw: string, t: string)
    requires OneLine(t) && t != "" && t[0] == '{'
    ensures !Appendable(raw + t)
  {
    CutAfter(raw, t);
    assert (raw + t)[Cut(raw + t)..][|raw| - Cut(raw)] == '{';
  }

  lemma {:induction false} CutAfter(raw: string, t: string)
    requires OneLine(t)
    ensures Cut(raw + t) == Cut(raw)
    decreases |t|
  {
    if t == "" {
      assert raw + t == raw;
    } else {
      assert (raw + t)[..|raw + t| - 1] == raw + t[..|t| - 1];
      CutAfter(raw, t[..|t| - 1]);
    }
  }

  // ---- Whole histories ------------------------------------------------------

  /** The file a run of appends leaves behind. */
  function Written(es: seq<Entry>): string {
    if es == [] then "" else Written(es[..|es| - 1]) + Line(es[|es| - 1])
  }

  predicate Dense(es: seq<Entry>) { forall i :: 0 <= i < |es| ==> es[i].sequence == i }

  /** Any list of appends, from any number of publishers, reads back as itself exactly when its sequences are
      0, 1, 2, and so on, and is refused otherwise. */
  lemma {:induction false} HistoryReadsExactly(es: seq<Entry>, read: Reader, types: FieldTypes)
    requires Faithful(read, types) && forall e :: e in es ==> Accepted(e, types)
    ensures Finished(Written(es))
    ensures if Dense(es) then Read(Written(es), read) == Ok(es) else Read(Written(es), read).Err?
    decreases |es|
  {
    hide Read, Line, Accepted, Faithful, Finished, Dense;
    if es == [] {
      ReadNothing(read);
      NothingFinished();
    } else {
      var init, e := es[..|es| - 1], es[|es| - 1];
      assert es == init + [e] && e in es;
      assert forall d :: d in init ==> d in es;
      HistoryReadsExactly(init, read, types);
      OneMore(Written(init), init, e, read, types);
    }
  }

  lemma NothingFinished()
    ensures Finished("") && Dense([])
  {
  }

  lemma OneMore(raw: string, init: seq<Entry>, e: Entry, read: Reader, types: FieldTypes)
    requires Faithful(read, types) && Accepted(e, types) && Finished(raw)
    requires if Dense(init) then Read(raw, read) == Ok(init) else Read(raw, read).Err?
    ensures Finished(raw + Line(e))
    ensures if Dense(init + [e]) then Read(raw + Line(e), read) == Ok(init + [e]) else Read(raw + Line(e), read).Err?
  {
    hide Read, Line, Accepted, Faithful, Finished, Dense, Appendable;
    FinishedIsAppendable(raw);
    FinishedLine(raw, e);
    LineStarts(e);
    DenseSnoc(init, e);
    if Dense(init) {
      ReadAfterAppend(raw, init, e, read, types);
    } else {
      CorruptStays(raw, Line(e), read);
    }
  }

  lemma DenseSnoc(init: seq<Entry>, e: Entry)
    ensures Dense(init + [e]) <==> Dense(init) && e.sequence == |init|
  {
    var es := init + [e];
    assert forall i :: 0 <= i < |init| ==> es[i] == init[i];
    assert es[|init|] == e;
  }

  lemma FinishedLine(raw: string, e: Entry)
    ensures Finished(raw + Line(e))
  {
    hide EntryText;
    assert (raw + Line(e))[|raw + Line(e)| - 1] == '\n';
  }

  lemma ReadNothing(read: Reader)
    ensures Read("", read) == Ok([])
  {
  }

  lemma LineStarts(e: Entry)
    ensures Line(e) != "" && Line(e)[0] == '{'
  {
    EntryTextOneLine(e);
  }

  /** Two publishers that both counted before either wrote leave a journal nobody can read. */
  lemma TwoPublishersCollide(raw: string, es: seq<Entry>, d: Entry, e: Entry, read: Reader, types: FieldTypes)
    requires Faithful(read, types) && Accepted(d, types) && Accepted(e, types)
    requires Read(raw, read) == Ok(es) && d.sequence == |es| == e.sequence
    ensures Read(raw + Line(d) + Line(e), read).Err?
  {
    hide Read, Line, Accepted, Faithful, Finished, Appendable;
    LineStarts(e);
    FinishedLine(raw, d);
    ReadAfterAppend(raw, es, d, read, types);
    if Appendable(raw) {
      ReadAfterAppend(raw + Line(d), es + [d], e, read, types);
    } else {
      CorruptStays(raw + Line(d), Line(e), read);
    }
  }

  lemma Rejoin(before: string, line: string, written: nat, n: nat)
    requires written + n <= |line|
    ensures before + line[..written] + line[written..][..n] == before + line[..written + n]
  {
  }

  // ---- The journal ----------------------------------------------------------

  datatype Appended = Whole | Refused | Died

  /** Where a process that may die at all may die. */
  method Dies(mortal: bool) returns (dead: bool)
    ensures dead ==> mortal
  {
    dead := false;
    if mortal {
      dead := *;
    }
  }

  /** The entry that published the run: the last one that did. */
  ghost predicate IsPublication(es: seq<Entry>, found: Option<Entry>) {
    match found
    case None => forall e :: e in es ==> !e.status.Published?
    case Some(e) =>
      exists i :: 0 <= i < |es| && es[i] == e && e.status.Published? && forall j :: i < j < |es| ==> !es[j].status.Published?
  }

  class PublicationJournal {
    /** The file's bytes; None while nobody has published. */
    var file: Option<string>
    const read: Reader

    constructor (file: Option<string>, read: Reader)
      ensures this.file == file && this.read == read
    {
      this.file := file;
      this.read := read;
    }

    function Raw(): string
      reads this
    {
      if file.Some? then file.value else ""
    }

    function History(): Result<seq<Entry>, Corrupt>
      reads this
    {
      Read(Raw(), read)
    }

    method Entries() returns (r: Result<seq<Entry>, Corrupt>)
      ensures r == History()
    {
      if file.None? {
        ReadNothing(read);
        return Ok([]);
      }
      var entries: seq<Entry> := [];
      var lines := Lines(file.value);
      assert lines[0..] == lines;
      for position := 0 to |lines|
        invariant ReadFrom(lines[position..], position, entries, read) == History()
      {
        var line := lines[position];
        assert lines[position..][0] == line && lines[position..][1..] == lines[position + 1..];
        if Blank(line) {
          continue;
        }
        var entry := read(line);
        if entry.None? {
          return Err(Unreadable(position));
        }
        if entry.value.sequence != |entries| {
          return Err(Missing(entry.value.sequence));
        }
        entries := entries + [entry.value];
      }
      return Ok(entries);
    }

    method Status() returns (r: Result<PublicationStatus, Corrupt>)
      ensures History().Err? ==> r == Err(History().error)
      ensures History().Ok? && History().value == [] ==> r == Ok(NotRequested)
      ensures History().Ok? && History().value != [] ==> r == Ok(History().value[|History().value| - 1].status)
    {
      var entries := Entries();
      match entries
      case Err(c) => r := Err(c);
      case Ok(es) => r := Ok(if es == [] then NotRequested else es[|es| - 1].status);
    }

    /** published() */
    method Publication() returns (r: Result<Option<Entry>, Corrupt>)
      ensures if History().Err? then r == Err(History().error) else r.Ok?
      ensures r.Ok? ==> IsPublication(History().value, r.value)
    {
      var entries := Entries();
      if entries.Err? {
        return Err(entries.error);
      }
      var es := entries.value;
      for i := |es| downto 0
        invariant forall j :: i <= j < |es| ==> !es[j].status.Published?
      {
        if es[i].status.Published? {
          return Ok(Some(es[i]));
        }
      }
      return Ok(None);
    }

    method NextSequence() returns (r: Result<nat, Corrupt>)
      ensures r == match History() case Err(c) => Err(c) case Ok(es) => Ok(|es|)
    {
      var entries := Entries();
      match entries
      case Err(c) => r := Err(c);
      case Ok(es) => r := Ok(|es|);
    }

    /** os.write: some of the data, and at least one byte of it. */
    method Write(data: string) returns (n: nat)
      requires file.Some? && data != ""
      modifies this`file
      ensures 0 < n <= |data| && file == Some(old(file.value) + data[..n])
    {
      n :| 0 < n <= |data|;
      file := Some(file.value + data[..n]);
    }

    /** A process that may die can die before any write; what it had written stays. */
    method Append(e: Entry, mortal: bool) returns (outcome: Appended, ghost k: nat)
      modifies this`file
      ensures outcome.Died? ==> mortal
      ensures k <= |Line(e)| && Raw() == old(Raw()) + Line(e)[..k]
      ensures outcome.Refused? <==> !Encodable(e)
      ensures outcome.Refused? ==> file == old(file)
      ensures outcome.Whole? ==> k == |Line(e)|
    {
      hide Line, Encodable;
      k := 0;
      if !Encodable(e) {
        return Refused, 0;
      }
      var line := Line(e);
      var dead := Dies(mortal);
      if dead {
        return Died, 0;
      }
      if file.None? {
        file := Some("");
      }
      ghost var before := Raw();
      assert before + line[..0] == before;
      var written := 0;
      while written < |line|
        invariant written <= |line| && file == Some(before + line[..written])
      {
        dead := Dies(mortal);
        if dead {
          return Died, written;
        }
        var n := Write(line[written..]);
        Rejoin(before, line, written, n);
        written := written + n;
      }
      return Whole, written;
    }
  }
}
