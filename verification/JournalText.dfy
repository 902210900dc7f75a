/** The text of one journal entry: RFC 8785 canonical JSON, one char standing for one UTF-8 byte. */
module JournalText {
  import opened Json
  import opened Wrappers

  datatype PublicationStatus = NotRequested | Blocked | Pending | Published | Failed

  datatype Entry = Entry(
    sequence: nat, at: string, runId: string, status: PublicationStatus, bundleDigest: string, endpoint: string,
    fileCount: nat, byteCount: nat, entryUrl: Option<string>, logSequence: Option<nat>, errorCode: Option<string>)

  const SCHEMA_VERSION: string := "techtree.publication-journal.v1alpha1"

  /** The largest integer RFC 8785 lets a number be, section 3.2.2.3. */
  const MAXIMUM_INTEGER: nat := 9_007_199_254_740_991

  /** PublicationJournalEntry's validator. */
  predicate Valid(e: Entry) {
    e.fileCount > 0 && e.byteCount > 0
    && (e.status.Pending? || e.status.Published? || e.status.Failed?)
    && !(e.status.Published? && (e.entryUrl.None? || e.logSequence.None?))
    && !(!e.status.Published? && (e.entryUrl.Some? || e.logSequence.Some?))
    && !(e.status.Failed? && e.errorCode.None?)
    && !(!e.status.Failed? && e.errorCode.Some?)
  }

  /** What the field types of the model take: a UTC time, a string with something to see in it, a digest. */
  datatype FieldTypes = FieldTypes(time: string -> bool, name: string -> bool, digest: string -> bool)

  predicate WellTyped(e: Entry, types: FieldTypes) {
    types.time(e.at) && types.name(e.runId) && types.digest(e.bundleDigest) && types.name(e.endpoint)
    && (e.entryUrl.Some? ==> types.name(e.entryUrl.value)) && (e.errorCode.Some? ==> types.name(e.errorCode.value))
  }

  /** What the model can be built from, and what it can be read back as. */
  predicate Accepted(e: Entry, types: FieldTypes) { Valid(e) && WellTyped(e, types) }

  /** A valid entry says the same thing twice: its status, and which of its optional fields are there. */
  lemma StatusReadsOff(e: Entry)
    requires Valid(e)
    ensures e.status == if e.entryUrl.Some? then Published else if e.errorCode.Some? then Failed else Pending
    ensures e.entryUrl.Some? <==> e.logSequence.Some?
    ensures !(e.entryUrl.Some? && e.errorCode.Some?)
  {
  }

  /** Whether RFC 8785 can spell the entry's numbers. */
  predicate Encodable(e: Entry) {
    e.sequence <= MAXIMUM_INTEGER && e.fileCount <= MAXIMUM_INTEGER && e.byteCount <= MAXIMUM_INTEGER
    && (e.logSequence.Some? ==> e.logSequence.value <= MAXIMUM_INTEGER)
  }

  // ---- Encoding -------------------------------------------------------------

  function HexDigit(d: nat): char
    requires d < 16
  {
    "0123456789abcdef"[d]
  }

  /** RFC 8785, section 3.2.2.2. */
  function EscapeChar(c: char): string {
    if c == '"' then "\\\""
    else if c == '\\' then "\\\\"
    else if c as int == 8 then "\\b"
    else if c == '\t' then "\\t"
    else if c == '\n' then "\\n"
    else if c as int == 12 then "\\f"
    else if c == '\r' then "\\r"
    else if c as int < 32 then ['\\', 'u', '0', '0', HexDigit(c as int / 16), HexDigit(c as int % 16)]
    else [c]
  }

  function EscapeAll(s: string): string {
    if s == "" then "" else EscapeChar(s[0]) + EscapeAll(s[1..])
  }

  datatype Scalar = NoValue | Number(n: nat) | Text(s: string)

  function ScalarText(v: Scalar): string {
    match v
    case NoValue => "null"
    case Number(n) => Decimal(n)
    case Text(s) => "\"" + EscapeAll(s) + "\""
  }

  datatype Member = Member(key: string, value: Scalar)

  function MemberText(m: Member): string { ScalarText(Text(m.key)) + ":" + ScalarText(m.value) }

  /** What follows the opening brace. */
  function MembersText(ms: seq<Member>): string
    requires ms != []
  {
    MemberText(ms[0]) + if |ms| == 1 then "}" else "," + MembersText(ms[1..])
  }

  function StatusText(s: PublicationStatus): string {
    match s
    case NotRequested => "not_requested"
    case Blocked => "blocked"
    case Pending => "pending"
    case Published => "published"
    case Failed => "failed"
  }

  function OptionalText(s: Option<string>): Scalar { if s.Some? then Text(s.value) else NoValue }

  /** The members in RFC 8785 key order. */
  function Members(e: Entry): (ms: seq<Member>)
    ensures |ms| == 12
  {
    [Member("at", Text(e.at)),
     Member("bundle_digest", Text(e.bundleDigest)),
     Member("byte_count", Number(e.byteCount)),
     Member("endpoint", Text(e.endpoint)),
     Member("entry_url", OptionalText(e.entryUrl)),
     Member("error_code", OptionalText(e.errorCode)),
     Member("file_count", Number(e.fileCount)),
     Member("log_sequence", if e.logSequence.Some? then Number(e.logSequence.value) else NoValue),
     Member("run_id", Text(e.runId)),
     Member("schema_version", Text(SCHEMA_VERSION)),
     Member("sequence", Number(e.sequence)),
     Member("status", Text(StatusText(e.status)))]
  }

  /** canonical_json_bytes of an entry. */
  function EntryText(e: Entry): string { "{" + MembersText(Members(e)) }

  // ---- One text, one entry --------------------------------------------------

  /** The escape code is prefix-free, and no code starts with the closing quote. */
  lemma EscapePrefixFree(c: char, r: string, d: char, q: string)
    requires EscapeChar(c) + r == EscapeChar(d) + q
    ensures c == d && r == q
  {
    var a, b := EscapeChar(c), EscapeChar(d);
    var t := a + r;
    assert t[0] == a[0] == b[0];
    if |a| > 1 && |b| > 1 {
      assert t[1] == a[1] == b[1];
      if |a| == 6 && |b| == 6 {
        assert t[4] == a[4] == b[4] && t[5] == a[5] == b[5];
        HexDigitInjective(c as int / 16, d as int / 16);
        HexDigitInjective(c as int % 16, d as int % 16);
      }
    }
    assert a == b;
    assert r == t[|a|..] && q == t[|b|..];
  }

  lemma HexDigitInjective(m: nat, n: nat)
    requires m < 16 && n < 16
    ensures HexDigit(m) == HexDigit(n) ==> m == n
  {
  }

  lemma ClosingQuoteFirst(s: string, r: string)
    ensures (EscapeAll(s) + "\"" + r)[0] == '"' <==> s == ""
  {
    if s != "" {
      assert (EscapeAll(s) + "\"" + r)[0] == EscapeChar(s[0])[0];
    }
  }

  lemma QuotedCons(s: string, r: string)
    requires s != ""
    ensures EscapeAll(s) + "\"" + r == EscapeChar(s[0]) + (EscapeAll(s[1..]) + "\"" + r)
  {
  }

  /** A string's escaped form up to its closing quote can be told from whatever follows. */
  lemma {:induction false} QuotedPrefixFree(s: string, r: string, t: string, q: string)
    requires EscapeAll(s) + "\"" + r == EscapeAll(t) + "\"" + q
    ensures s == t && r == q
  {
    ClosingQuoteFirst(s, r);
    ClosingQuoteFirst(t, q);
    if s == "" {
      assert r == (EscapeAll(s) + "\"" + r)[1..];
      assert q == (EscapeAll(t) + "\"" + q)[1..];
    } else {
      QuotedCons(s, r);
      QuotedCons(t, q);
      hide EscapeAll, EscapeChar;
      EscapePrefixFree(s[0], EscapeAll(s[1..]) + "\"" + r, t[0], EscapeAll(t[1..]) + "\"" + q);
      QuotedPrefixFree(s[1..], r, t[1..], q);
    }
  }

  /** What may follow a value inside an object. */
  predicate Delimited(r: string) { r != "" && (r[0] == ',' || r[0] == '}') }

  lemma DigitsThenDelimiter(a: string, r: string)
    requires IsNumeral(a) && Delimited(r)
    ensures |a + r| > |a| && !('0' <= (a + r)[|a|] <= '9')
    ensures forall i :: 0 <= i < |a| ==> '0' <= (a + r)[i] <= '9'
  {
  }

  lemma DecimalPrefixFree(m: nat, r: string, n: nat, q: string)
    requires Delimited(r) && Delimited(q) && Decimal(m) + r == Decimal(n) + q
    ensures m == n && r == q
  {
    var a, b, t := Decimal(m), Decimal(n), Decimal(m) + r;
    DecimalIsNumeral(m);
    DecimalIsNumeral(n);
    DigitsThenDelimiter(a, r);
    DigitsThenDelimiter(b, q);
    assert |a| == |b|;
    assert a == t[..|a|] && b == t[..|b|];
    DecimalInjective(m, n);
    assert r == t[|a|..] && q == t[|b|..];
  }

  lemma ScalarPrefixFree(v: Scalar, r: string, w: Scalar, q: string)
    requires Delimited(r) && Delimited(q) && ScalarText(v) + r == ScalarText(w) + q
    ensures v == w && r == q
  {
    hide Decimal, EscapeAll;
    var t := ScalarText(v) + r;
    ScalarStarts(v);
    ScalarStarts(w);
    SameHead(ScalarText(v), r, ScalarText(w), q);
    if v.Text? {
      TextBody(v.s, r);
      TextBody(w.s, q);
      QuotedPrefixFree(v.s, r, w.s, q);
    } else if v.Number? {
      DecimalPrefixFree(v.n, r, w.n, q);
    } else {
      assert r == t[4..] && q == t[4..];
    }
  }

  lemma SameHead(a: string, r: string, b: string, q: string)
    requires a != "" && b != "" && a + r == b + q
    ensures a[0] == b[0]
  {
    assert (a + r)[0] == a[0] && (b + q)[0] == b[0];
  }

  lemma TextBody(s: string, r: string)
    ensures (ScalarText(Text(s)) + r)[1..] == EscapeAll(s) + "\"" + r
  {
    hide EscapeAll;
  }

  lemma ScalarStarts(v: Scalar)
    ensures ScalarText(v) != ""
    ensures v.Text? <==> ScalarText(v)[0] == '"'
    ensures v.Number? <==> '0' <= ScalarText(v)[0] <= '9'
  {
    if v.Number? {
      DecimalIsNumeral(v.n);
    }
  }

  ghost predicate SameKeys(a: seq<Member>, b: seq<Member>) {
    |a| == |b| && forall i :: 0 <= i < |a| ==> a[i].key == b[i].key
  }

  /** What follows one member: the end of the object, or the rest of it. */
  function Remainder(ms: seq<Member>): string
    requires ms != []
  {
    if |ms| == 1 then "}" else "," + MembersText(ms[1..])
  }

  lemma AfterKey(ms: seq<Member>)
    requires ms != []
    ensures var head := ScalarText(Text(ms[0].key)) + ":";
            |head| <= |MembersText(ms)| && MembersText(ms)[|head|..] == ScalarText(ms[0].value) + Remainder(ms)
    ensures Delimited(Remainder(ms))
  {
    hide ScalarText;
    var head := ScalarText(Text(ms[0].key)) + ":";
    assert MembersText(ms) == head + (ScalarText(ms[0].value) + Remainder(ms));
  }

  lemma {:induction false} MembersInjective(a: seq<Member>, b: seq<Member>)
    requires a != [] && SameKeys(a, b) && MembersText(a) == MembersText(b)
    ensures a == b
  {
    hide ScalarText, MembersText;
    AfterKey(a);
    AfterKey(b);
    ScalarPrefixFree(a[0].value, Remainder(a), b[0].value, Remainder(b));
    if |a| > 1 {
      assert Remainder(a)[1..] == MembersText(a[1..]) && Remainder(b)[1..] == MembersText(b[1..]);
      MembersInjective(a[1..], b[1..]);
      assert a == [a[0]] + a[1..] && b == [b[0]] + b[1..];
    }
  }

  /** Two entries never share a line. */
  lemma EntryTextInjective(d: Entry, e: Entry)
    requires EntryText(d) == EntryText(e)
    ensures d == e
  {
    hide MembersText, StatusText;
    assert MembersText(Members(d)) == EntryText(d)[1..] && MembersText(Members(e)) == EntryText(e)[1..];
    MembersInjective(Members(d), Members(e));
    var a, b := Members(d), Members(e);
    assert a[0] == b[0] && a[1] == b[1] && a[2] == b[2] && a[3] == b[3] && a[4] == b[4] && a[5] == b[5];
    assert a[6] == b[6] && a[7] == b[7] && a[8] == b[8] && a[10] == b[10] && a[11] == b[11];
    StatusTextInjective(d.status, e.status);
  }

  lemma StatusTextInjective(s: PublicationStatus, t: PublicationStatus)
    requires StatusText(s) == StatusText(t)
    ensures s == t
  {
    assert |StatusText(s)| == |StatusText(t)|;
    assert StatusText(s)[0] == StatusText(t)[0] && StatusText(s)[1] == StatusText(t)[1];
  }

  // ---- Where an object ends -------------------------------------------------

  datatype Mode = Plain | InString | Escaped

  /** How far a text has got into its one object. */
  datatype Scan = Before | Inside(depth: nat, mode: Mode) | After | Broken

  predicate JsonBlank(c: char) { c == ' ' || c == '\t' || c == '\n' || c == '\r' }

  function Step(st: Scan, c: char): Scan {
    match st
    case Before => if JsonBlank(c) then Before else if c == '{' then Inside(1, Plain) else Broken
    case Inside(d, Plain) =>
      if c == '"' then Inside(d, InString)
      else if c == '{' || c == '[' then Inside(d + 1, Plain)
      else if c == '}' || c == ']' then if d <= 1 then After else Inside(d - 1, Plain)
      else st
    case Inside(d, InString) => if c == '\\' then Inside(d, Escaped) else if c == '"' then Inside(d, Plain) else st
    case Inside(d, Escaped) => Inside(d, InString)
    case After => if JsonBlank(c) then After else Broken
    case Broken => Broken
  }

  function ScanFrom(st: Scan, s: string): Scan
    decreases |s|
  {
    if s == "" then st else ScanFrom(Step(st, s[0]), s[1..])
  }

  lemma {:induction false} ScanConcat(st: Scan, a: string, b: string)
    ensures ScanFrom(st, a + b) == ScanFrom(ScanFrom(st, a), b)
    decreases |a|
  {
    if a == "" {
      assert a + b == b;
    } else {
      assert (a + b)[1..] == a[1..] + b;
      ScanConcat(Step(st, a[0]), a[1..], b);
    }
  }

  lemma {:induction false} BrokenStays(s: string)
    ensures ScanFrom(Broken, s) == Broken
  {
    if s != "" {
      BrokenStays(s[1..]);
    }
  }

  /** Read inside an object, the text leaves it open at every point and comes back to where it started. */
  ghost predicate Inert(m: Mode, s: string, n: Mode) {
    ScanFrom(Inside(1, m), s) == Inside(1, n)
    && forall k :: 0 <= k <= |s| ==> var st := ScanFrom(Inside(1, m), s[..k]); st.Inside? && st.depth == 1
  }

  lemma InertConcat(a: string, b: string, l: Mode, m: Mode, n: Mode)
    requires Inert(l, a, m) && Inert(m, b, n)
    ensures Inert(l, a + b, n)
  {
    ScanConcat(Inside(1, l), a, b);
    forall k | 0 <= k <= |a + b|
      ensures var st := ScanFrom(Inside(1, l), (a + b)[..k]); st.Inside? && st.depth == 1
    {
      if k <= |a| {
        assert (a + b)[..k] == a[..k];
      } else {
        assert (a + b)[..k] == a + b[..k - |a|];
        ScanConcat(Inside(1, l), a, b[..k - |a|]);
      }
    }
  }

  lemma InertChar(m: Mode, c: char)
    requires m.Plain? ==> c !in "{}[]"
    ensures Inert(m, [c], Step(Inside(1, m), c).mode)
  {
    assert [c][..0] == "" && [c][..1] == [c] && [c][1..] == "";
  }

  lemma {:induction false} InertPlain(s: string)
    requires forall i :: 0 <= i < |s| ==> s[i] !in "{}[]\""
    ensures Inert(Plain, s, Plain)
  {
    if s != "" {
      InertChar(Plain, s[0]);
      InertPlain(s[1..]);
      InertConcat([s[0]], s[1..], Plain, Plain, Plain);
      assert s == [s[0]] + s[1..];
    }
  }

  lemma InertEscape(c: char)
    ensures Inert(InString, EscapeChar(c), InString)
  {
    var e := EscapeChar(c);
    InertChar(InString, e[0]);
    if |e| == 1 {
      assert e == [e[0]];
    } else {
      InertChar(Escaped, e[1]);
      InertConcat([e[0]], [e[1]], InString, Escaped, InString);
      if |e| == 2 {
        assert e == [e[0]] + [e[1]];
      } else {
        HexIsPlain(e[4]);
        HexIsPlain(e[5]);
        assert e == ['\\'] + ['u'] + e[2..];
        InertInString(e[2..]);
        InertConcat([e[0]] + [e[1]], e[2..], InString, InString, InString);
      }
    }
  }

  lemma HexIsPlain(c: char)
    ensures c in "0123456789abcdef" ==> c != '"' && c != '\\'
  {
  }

  lemma {:induction false} InertInString(s: string)
    requires forall i :: 0 <= i < |s| ==> s[i] != '"' && s[i] != '\\'
    ensures Inert(InString, s, InString)
  {
    if s != "" {
      InertChar(InString, s[0]);
      InertInString(s[1..]);
      InertConcat([s[0]], s[1..], InString, InString, InString);
      assert s == [s[0]] + s[1..];
    }
  }

  lemma {:induction false} InertEscapeAll(s: string)
    ensures Inert(InString, EscapeAll(s), InString)
  {
    if s != "" {
      InertEscape(s[0]);
      InertEscapeAll(s[1..]);
      InertConcat(EscapeChar(s[0]), EscapeAll(s[1..]), InString, InString, InString);
    }
  }

  lemma InertScalar(v: Scalar)
    ensures Inert(Plain, ScalarText(v), Plain)
  {
    match v
    case NoValue => InertPlain("null");
    case Number(n) =>
      DecimalIsNumeral(n);
      InertPlain(Decimal(n));
    case Text(s) =>
      InertChar(Plain, '"');
      InertChar(InString, '"');
      InertEscapeAll(s);
      InertConcat("\"", EscapeAll(s), Plain, InString, InString);
      InertConcat("\"" + EscapeAll(s), "\"", Plain, InString, Plain);
  }

  lemma InertMember(m: Member)
    ensures Inert(Plain, MemberText(m), Plain)
  {
    hide ScalarText, Inert;
    InertScalar(Text(m.key));
    InertChar(Plain, ':');
    InertScalar(m.value);
    InertConcat(ScalarText(Text(m.key)), ":", Plain, Plain, Plain);
    InertConcat(ScalarText(Text(m.key)) + ":", ScalarText(m.value), Plain, Plain, Plain);
  }

  /** All but the closing brace. */
  lemma {:induction false} InertMembers(ms: seq<Member>)
    requires ms != []
    ensures MembersText(ms) != "" && MembersText(ms)[|MembersText(ms)| - 1] == '}'
    ensures Inert(Plain, MembersText(ms)[..|MembersText(ms)| - 1], Plain)
  {
    hide MemberText, Inert;
    var t := MembersText(ms);
    InertMember(ms[0]);
    if |ms| == 1 {
      assert t[..|t| - 1] == MemberText(ms[0]);
    } else {
      var u := MembersText(ms[1..]);
      InertMembers(ms[1..]);
      InertChar(Plain, ',');
      InertConcat(MemberText(ms[0]), ",", Plain, Plain, Plain);
      InertConcat(MemberText(ms[0]) + ",", u[..|u| - 1], Plain, Plain, Plain);
      assert t[..|t| - 1] == MemberText(ms[0]) + "," + u[..|u| - 1];
    }
  }

  /** An entry's text is one whole object, and no strict prefix of it is. */
  lemma EntryTextCloses(e: Entry)
    ensures ScanFrom(Before, EntryText(e)) == After
    ensures forall k :: 0 < k < |EntryText(e)| ==> ScanFrom(Before, EntryText(e)[..k]).Inside?
  {
    hide MembersText;
    var t := MembersText(Members(e));
    InertMembers(Members(e));
    var body := t[..|t| - 1];
    var text := EntryText(e);
    assert text == "{" + body + "}";
    hide Members;
    OpenBrace();
    ScanConcat(Before, "{", body);
    ScanConcat(Before, "{" + body, "}");
    assert ScanFrom(Inside(1, Plain), "}") == After by { assert "}"[1..] == ""; }
    forall k | 0 < k < |text|
      ensures ScanFrom(Before, text[..k]).Inside?
    {
      assert text[..k] == "{" + body[..k - 1];
      ScanConcat(Before, "{", body[..k - 1]);
    }
  }

  lemma OpenBrace()
    ensures ScanFrom(Before, "{") == Inside(1, Plain)
  {
    assert "{"[1..] == "";
  }

  predicate JsonBlanks(s: string) { forall i :: 0 <= i < |s| ==> JsonBlank(s[i]) }

  /** Blanks before the object are passed over, and anything else there is not. */
  lemma {:induction false} ScanBlanks(w: string)
    ensures JsonBlanks(w) ==> ScanFrom(Before, w) == Before
    ensures !JsonBlanks(w) && '{' !in w ==> ScanFrom(Before, w) == Broken
    decreases |w|
  {
    if w != "" {
      assert forall i :: 0 <= i < |w[1..]| ==> w[1..][i] == w[i + 1];
      if JsonBlank(w[0]) {
        ScanBlanks(w[1..]);
        assert JsonBlanks(w) <==> JsonBlanks(w[1..]) by {
          if JsonBlanks(w[1..]) {
            assert forall i :: 0 < i < |w| ==> w[i] == w[1..][i - 1];
          }
        }
      } else if w[0] != '{' {
        BrokenStays(w[1..]);
      }
    }
  }

  // ---- No line break, section 3.2.2.2 of RFC 8785 ---------------------------

  predicate OneLine(s: string) { forall i :: 0 <= i < |s| ==> s[i] != '\n' && s[i] != '\r' }

  lemma {:induction false} EscapeAllOneLine(s: string)
    ensures OneLine(EscapeAll(s))
  {
    if s != "" {
      EscapeAllOneLine(s[1..]);
      assert OneLine(EscapeChar(s[0]));
    }
  }

  lemma ScalarOneLine(v: Scalar)
    ensures OneLine(ScalarText(v))
  {
    if v.Number? {
      DecimalIsNumeral(v.n);
    } else if v.Text? {
      EscapeAllOneLine(v.s);
    }
  }

  lemma {:induction false} MembersOneLine(ms: seq<Member>)
    requires ms != []
    ensures OneLine(MembersText(ms))
  {
    hide ScalarText;
    ScalarOneLine(Text(ms[0].key));
    ScalarOneLine(ms[0].value);
    if |ms| > 1 {
      MembersOneLine(ms[1..]);
    }
  }

  /** However an entry's strings read, its text holds no line break. */
  lemma EntryTextOneLine(e: Entry)
    ensures OneLine(EntryText(e))
    ensures |EntryText(e)| > 1 && EntryText(e)[0] == '{'
  {
    hide MembersText, Members, Inert;
    MembersOneLine(Members(e));
    InertMembers(Members(e));
  }
}
