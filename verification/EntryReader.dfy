/** Reading an entry's text back, by the grammar of RFC 8259 alone. */
module EntryReader {
  import opened Wrappers
  import opened Ordering
  import opened Json
  import opened JournalText

  // ---- The reader -----------------------------------------------------------

  function HexValue(c: char): Option<nat> {
    if '0' <= c <= '9' then Some(c as int - '0' as int)
    else if 'a' <= c <= 'f' then Some(c as int - 'a' as int + 10)
    else if 'A' <= c <= 'F' then Some(c as int - 'A' as int + 10)
    else None
  }

  /** The character that four hexadecimal digits name; one from 128 up is more than one byte, and is not read here. */
  function ReadHex(t: string): Option<char>
    requires |t| == 4
  {
    match (HexValue(t[2]), HexValue(t[3]))
    case (Some(high), Some(low)) => if t[..2] == "00" && high < 8 then Some((16 * high + low) as char) else None
    case _ => None
  }

  /** One character inside a string, section 7, and what follows it. */
  function ReadChar(t: string): (r: Option<(char, string)>)
    ensures r.Some? ==> |r.value.1| < |t|
  {
    if t == "" || t[0] == '"' || t[0] as int < 32 then None
    else if t[0] != '\\' then Some((t[0], t[1..]))
    else if |t| < 2 then None
    else match t[1]
      case '"' => Some(('"', t[2..]))
      case '\\' => Some(('\\', t[2..]))
      case '/' => Some(('/', t[2..]))
      case 'b' => Some((8 as char, t[2..]))
      case 'f' => Some((12 as char, t[2..]))
      case 'n' => Some((10 as char, t[2..]))
      case 'r' => Some((13 as char, t[2..]))
      case 't' => Some((9 as char, t[2..]))
      case 'u' => if |t| < 6 || ReadHex(t[2..6]).None? then None else Some((ReadHex(t[2..6]).value, t[6..]))
      case _ => None
  }

  /** A string, from behind its opening quote. */
  function ReadText(t: string): (r: Option<(string, string)>)
    ensures r.Some? ==> |r.value.1| < |t|
    decreases |t|
  {
    if t != "" && t[0] == '"' then Some(("", t[1..]))
    else match ReadChar(t)
      case None => None
      case Some((c, rest)) =>
        match ReadText(rest)
        case None => None
        case Some((s, after)) => Some(([c] + s, after))
  }

  function DigitsOf(t: string): (n: nat)
    ensures n <= |t| && (n > 0 ==> IsNumeral(t[..n]))
    ensures n < |t| ==> !('0' <= t[n] <= '9')
    ensures forall i :: 0 <= i < n ==> '0' <= t[i] <= '9'
  {
    if t != "" && '0' <= t[0] <= '9' then 1 + DigitsOf(t[1..]) else 0
  }

  /** A whole number, section 6: no zero in front of other digits. */
  function ReadNumber(t: string): (r: Option<(nat, string)>)
    ensures r.Some? ==> |r.value.1| < |t|
  {
    var n := DigitsOf(t);
    if n == 0 || (n > 1 && t[0] == '0') then None else Some((NumeralValue(t[..n]), t[n..]))
  }

  function ReadScalar(t: string): (r: Option<(Scalar, string)>)
    ensures r.Some? ==> |r.value.1| < |t|
  {
    if t != "" && t[0] == '"' then
      match ReadText(t[1..])
      case None => None
      case Some((s, rest)) => Some((Text(s), rest))
    else if |t| >= 4 && t[..4] == "null" then Some((NoValue, t[4..]))
    else
      match ReadNumber(t)
      case None => None
      case Some((n, rest)) => Some((Number(n), rest))
  }

  /** A name, a colon and a value, section 4. */
  function ReadMember(t: string): (r: Option<(Member, string)>)
    ensures r.Some? ==> |r.value.1| < |t|
  {
    if t == "" || t[0] != '"' then None
    else match ReadText(t[1..])
      case None => None
      case Some((key, rest)) =>
        if rest == "" || rest[0] != ':' then None
        else match ReadScalar(rest[1..])
          case None => None
          case Some((v, after)) => Some((Member(key, v), after))
  }

  /** The members up to the closing brace, and what follows it. */
  function ReadMembers(t: string): Option<(seq<Member>, string)>
    decreases |t|
  {
    match ReadMember(t)
    case None => None
    case Some((m, rest)) =>
      if rest == "" then None
      else if rest[0] == '}' then Some(([m], rest[1..]))
      else if rest[0] != ',' then None
      else match ReadMembers(rest[1..])
        case None => None
        case Some((ms, after)) => Some(([m] + ms, after))
  }

  /** One object with at least one member, no blanks, and nothing after it. */
  function ReadObject(t: string): Option<seq<Member>> {
    if t == "" || t[0] != '{' then None
    else match ReadMembers(t[1..])
      case None => None
      case Some((ms, rest)) => if rest == "" then Some(ms) else None
  }

  // ---- The round trip -------------------------------------------------------

  /** The characters with an escape of their own, RFC 8785 section 3.2.2.2, by code. */
  const SHORT_ESCAPES: map<int, char> := map[8 := 'b', 9 := 't', 10 := 'n', 12 := 'f', 13 := 'r', 34 := '"', 92 := '\\']

  /** A character is escaped only where it must be, by its own escape where it has one, and otherwise in lower case. */
  lemma EscapedExactly(c: char)
    ensures var e := EscapeChar(c);
            if c as int in SHORT_ESCAPES then e == ['\\', SHORT_ESCAPES[c as int]]
            else if c as int >= 32 then e == [c]
            else |e| == 6 && e[..4] == "\\u00" && ReadHex(e[2..]) == Some(c) && forall i :: 4 <= i < 6 ==> !('A' <= e[i] <= 'F')
  {
    var e := EscapeChar(c);
    if c as int < 32 && c as int !in SHORT_ESCAPES {
      HexDigitReads(c as int / 16);
      HexDigitReads(c as int % 16);
      assert e[2..][..2] == "00";
    }
  }

  lemma HexDigitReads(d: nat)
    requires d < 16
    ensures HexValue(HexDigit(d)) == Some(d) && !('A' <= HexDigit(d) <= 'F')
  {
  }

  lemma ReadsChar(c: char, r: string)
    ensures ReadChar(EscapeChar(c) + r) == Some((c, r))
    ensures (EscapeChar(c) + r)[0] != '"'
  {
    EscapedExactly(c);
    hide ReadHex;
    var e, t := EscapeChar(c), EscapeChar(c) + r;
    assert t[|e|..] == r;
    assert forall i :: 0 <= i < |e| ==> t[i] == e[i];
    if |e| == 6 {
      assert t[2..6] == e[2..];
    }
  }

  lemma {:induction false} ReadsText(s: string, r: string)
    ensures ReadText(EscapeAll(s) + "\"" + r) == Some((s, r))
  {
    if s == "" {
      assert (EscapeAll(s) + "\"" + r)[1..] == r;
    } else {
      var rest := EscapeAll(s[1..]) + "\"" + r;
      QuotedCons(s, r);
      ReadsChar(s[0], rest);
      ReadsText(s[1..], r);
      assert [s[0]] + s[1..] == s;
    }
  }

  lemma ReadsNumber(n: nat, r: string)
    requires Delimited(r)
    ensures ReadNumber(Decimal(n) + r) == Some((n, r))
  {
    var a, t := Decimal(n), Decimal(n) + r;
    DecimalReadsBack(n);
    DigitsThenDelimiter(a, r);
    assert t[..|a|] == a && t[|a|..] == r;
    assert DigitsOf(t) == |a|;
    assert t[0] == a[0];
    if n == 0 {
    } else {
      assert t[0] != '0';
    }
  }

  lemma DigitIsNotNull(t: string)
    requires t != "" && '0' <= t[0] <= '9'
    ensures |t| >= 4 ==> t[..4] != "null"
  {
    assert |t| >= 4 ==> t[..4][0] == t[0];
  }

  lemma ReadsScalar(v: Scalar, r: string)
    requires Delimited(r)
    ensures ReadScalar(ScalarText(v) + r) == Some((v, r))
  {
    hide EscapeAll, Decimal, ReadText, ReadNumber;
    ScalarStarts(v);
    var t := ScalarText(v) + r;
    assert t[0] == ScalarText(v)[0];
    match v
    case NoValue =>
      assert t[..4] == "null" && t[4..] == r;
    case Number(n) =>
      ReadsNumber(n, r);
      DigitIsNotNull(t);
    case Text(s) =>
      TextBody(s, r);
      ReadsText(s, r);
  }

  lemma ReadsMember(m: Member, r: string)
    requires Delimited(r)
    ensures ReadMember(MemberText(m) + r) == Some((m, r))
  {
    hide EscapeAll, ReadText, ReadScalar;
    var after := ":" + ScalarText(m.value) + r;
    var t := MemberText(m) + r;
    assert t == ScalarText(Text(m.key)) + after;
    assert t[0] == '"';
    TextBody(m.key, after);
    ReadsText(m.key, after);
    assert after[1..] == ScalarText(m.value) + r;
    ReadsScalar(m.value, r);
  }

  lemma {:induction false} ReadsMembers(ms: seq<Member>)
    requires ms != []
    ensures ReadMembers(MembersText(ms)) == Some((ms, ""))
  {
    hide MemberText, ReadMember;
    var r := Remainder(ms);
    assert MembersText(ms) == MemberText(ms[0]) + r;
    ReadsMember(ms[0], r);
    if |ms| == 1 {
      assert r[1..] == "" && ms == [ms[0]];
    } else {
      assert r[1..] == MembersText(ms[1..]);
      ReadsMembers(ms[1..]);
      assert [ms[0]] + ms[1..] == ms;
    }
  }

  /** The value under a name. */
  function Under(ms: seq<Member>, key: string): Option<Scalar> {
    if ms == [] then None else if ms[0].key == key then Some(ms[0].value) else Under(ms[1..], key)
  }

  predicate KeysAscend(ms: seq<Member>) {
    forall i, j :: 0 <= i < j < |ms| ==> ms[i].key != ms[j].key && StrLe(ms[i].key, ms[j].key)
  }

  /** The status as the enumeration spells it. */
  predicate Spells(text: string, s: PublicationStatus) {
    match s
    case Pending => text == "pending"
    case Published => text == "published"
    case Failed => text == "failed"
    case NotRequested => text == "not_requested"
    case Blocked => text == "blocked"
  }

  /** Read as JSON, an entry's text is one object with twelve members in ascending order, and each field of the entry
      stands under its own name. */
  lemma EntryReadsBack(e: Entry)
    ensures var read := ReadObject(EntryText(e));
            read.Some? && |read.value| == 12 && KeysAscend(read.value)
            && Under(read.value, "schema_version") == Some(Text("techtree.publication-journal.v1alpha1"))
            && Under(read.value, "sequence") == Some(Number(e.sequence))
            && Under(read.value, "at") == Some(Text(e.at))
            && Under(read.value, "run_id") == Some(Text(e.runId))
            && (exists text :: Under(read.value, "status") == Some(Text(text)) && Spells(text, e.status))
            && Under(read.value, "bundle_digest") == Some(Text(e.bundleDigest))
            && Under(read.value, "endpoint") == Some(Text(e.endpoint))
            && Under(read.value, "file_count") == Some(Number(e.fileCount))
            && Under(read.value, "byte_count") == Some(Number(e.byteCount))
            && Under(read.value, "entry_url") == Some(if e.entryUrl.None? then NoValue else Text(e.entryUrl.value))
            && Under(read.value, "log_sequence") == Some(if e.logSequence.None? then NoValue else Number(e.logSequence.value))
            && Under(read.value, "error_code") == Some(if e.errorCode.None? then NoValue else Text(e.errorCode.value))
  {
    hide ReadMembers, MembersText, Members, KeysAscend, Under, StatusText;
    var ms := Members(e);
    assert EntryText(e)[1..] == MembersText(ms);
    ReadsMembers(ms);
    KeysInOrder(e);
    FirstSix(e);
    LastSix(e);
    StatusSpelled(e.status);
  }

  lemma StatusSpelled(s: PublicationStatus)
    ensures Spells(StatusText(s), s)
  {
  }

  lemma FirstSix(e: Entry)
    requires KeysAscend(Members(e))
    ensures var ms := Members(e);
            Under(ms, "at") == Some(Text(e.at))
            && Under(ms, "bundle_digest") == Some(Text(e.bundleDigest))
            && Under(ms, "byte_count") == Some(Number(e.byteCount))
            && Under(ms, "endpoint") == Some(Text(e.endpoint))
            && Under(ms, "entry_url") == Some(if e.entryUrl.None? then NoValue else Text(e.entryUrl.value))
            && Under(ms, "error_code") == Some(if e.errorCode.None? then NoValue else Text(e.errorCode.value))
  {
    hide Under, KeysAscend;
    var ms := Members(e);
    UnderAt(ms, 0);
    UnderAt(ms, 1);
    UnderAt(ms, 2);
    UnderAt(ms, 3);
    UnderAt(ms, 4);
    UnderAt(ms, 5);
  }

  lemma LastSix(e: Entry)
    requires KeysAscend(Members(e))
    ensures var ms := Members(e);
            Under(ms, "file_count") == Some(Number(e.fileCount))
            && Under(ms, "log_sequence") == Some(if e.logSequence.None? then NoValue else Number(e.logSequence.value))
            && Under(ms, "run_id") == Some(Text(e.runId))
            && Under(ms, "schema_version") == Some(Text("techtree.publication-journal.v1alpha1"))
            && Under(ms, "sequence") == Some(Number(e.sequence))
            && Under(ms, "status") == Some(Text(StatusText(e.status)))
  {
    hide Under, KeysAscend, StatusText;
    var ms := Members(e);
    UnderAt(ms, 6);
    UnderAt(ms, 7);
    UnderAt(ms, 8);
    UnderAt(ms, 9);
    UnderAt(ms, 10);
    UnderAt(ms, 11);
  }

  /** An entry can be encoded exactly when every number in its text is below 2^53, section 3.2.2.3 of RFC 8785. */
  lemma EncodableExactly(e: Entry)
    ensures var read := ReadObject(EntryText(e)); read.Some? && (Encodable(e) <==> SmallNumbers(read.value))
  {
    hide ReadMembers, MembersText;
    assert EntryText(e)[1..] == MembersText(Members(e));
    ReadsMembers(Members(e));
    NumbersOf(e);
    hide Members, SmallNumbers, Encodable;
  }

  predicate SmallNumbers(ms: seq<Member>) {
    forall i | 0 <= i < |ms| :: ms[i].value.Number? ==> ms[i].value.n < 0x20_0000_0000_0000
  }

  lemma NumbersOf(e: Entry)
    ensures Encodable(e) <==> SmallNumbers(Members(e))
  {
    hide StatusText;
    var ms := Members(e);
    assert ms[2].value == Number(e.byteCount) && ms[6].value == Number(e.fileCount) && ms[10].value == Number(e.sequence);
    assert e.logSequence.Some? ==> ms[7].value == Number(e.logSequence.value);
    forall i | 0 <= i < |ms| && ms[i].value.Number?
      ensures i == 2 || i == 6 || i == 7 || i == 10
    {
    }
    hide Members;
  }

  lemma {:induction false} UnderAt(ms: seq<Member>, i: nat)
    requires KeysAscend(ms) && i < |ms|
    ensures Under(ms, ms[i].key) == Some(ms[i].value)
  {
    if i > 0 {
      assert forall j :: 0 <= j < |ms[1..]| ==> ms[1..][j] == ms[j + 1];
      UnderAt(ms[1..], i - 1);
    }
  }

  const KEYS: seq<string> := [
    "at", "bundle_digest", "byte_count", "endpoint", "entry_url", "error_code", "file_count", "log_sequence", "run_id",
    "schema_version", "sequence", "status"]

  lemma KeysInOrder(e: Entry)
    ensures KeysAscend(Members(e))
  {
    var ms := Members(e);
    forall i | 0 <= i < 11
      ensures Below(KEYS[i], KEYS[i + 1])
    {
      NextKey(i);
    }
    forall i, j | 0 <= i < j < |ms|
      ensures ms[i].key != ms[j].key && StrLe(ms[i].key, ms[j].key)
    {
      assert ms[i].key == KEYS[i] && ms[j].key == KEYS[j];
      Chain(i, j);
    }
  }

  predicate Below(a: string, b: string) { a != b && StrLe(a, b) }

  lemma NextKey(i: nat)
    requires i < 11
    ensures Below(KEYS[i], KEYS[i + 1])
  {
    FirstDifference(KEYS[i], KEYS[i + 1], [0, 1, 0, 2, 1, 0, 0, 0, 0, 1, 1][i]);
  }

  lemma FirstDifference(a: string, b: string, k: nat)
    requires Differs(a, b, k) && a[k] < b[k]
    ensures Below(a, b)
  {
    StrLeExactly(a, b);
  }

  lemma {:induction false} Chain(i: nat, j: nat)
    requires i < j < 12 && forall k :: 0 <= k < 11 ==> Below(KEYS[k], KEYS[k + 1])
    ensures Below(KEYS[i], KEYS[j])
    decreases j
  {
    if i + 1 < j {
      Chain(i, j - 1);
      assert Below(KEYS[j - 1], KEYS[j - 1 + 1]);
      StrLeTransitive(KEYS[i], KEYS[j - 1], KEYS[j]);
      if KEYS[i] == KEYS[j] {
        StrLeAntisymmetric(KEYS[i], KEYS[j - 1]);
      }
    }
  }
}
