/** Checking an EVM address somebody typed: its shape, and the checksum EIP-55 hides in letter case. */
module Address {
  import opened PyInt
  import opened Wrappers
  import opened KeccakLanes
  import S = KeccakSpec
  import Keccak

  datatype Reason = Shape | Checksum

  // ---- The digest as a value ------------------------------------------------

  function FromBits(bits: seq<bool>): nat {
    if bits == [] then 0 else BitValue(bits[0]) + 2 * FromBits(bits[1..])
  }

  lemma {:induction false} FromBitsBit(bits: seq<bool>, i: nat)
    requires i < |bits|
    ensures Bit(FromBits(bits), i) == bits[i]
    decreases |bits|
  {
    assert FromBits(bits) / 2 == FromBits(bits[1..]);
    if i > 0 {
      FromBitsBit(bits[1..], i - 1);
    }
  }

  lemma {:induction false} FromBitsBound(bits: seq<bool>)
    ensures FromBits(bits) < Power(|bits|)
  {
    if bits == [] {
      ZeroPower();
    } else {
      FromBitsBound(bits[1..]);
      PowerStep(|bits| - 1);
    }
  }

  /** The Keccak-256 digest that section 5.2 of FIPS 202 defines, packed into bytes. */
  function Digest(data: seq<byte>): (digest: seq<byte>)
    ensures |digest| == 32
  {
    var bits := S.Keccak(512, ByteBits(data), 256);
    seq(32, i requires 0 <= i < 32 => ByteFrom(bits[8 * i..8 * i + 8]))
  }

  function ByteFrom(bits: seq<bool>): byte
    requires |bits| == 8
  {
    FromBitsBound(bits);
    EightBits();
    FromBits(bits)
  }

  lemma DigestBits(data: seq<byte>)
    ensures ByteBits(Digest(data)) == S.Keccak(512, ByteBits(data), 256)
  {
    hide Bit, S.Keccak, FromBits;
    var bits := S.Keccak(512, ByteBits(data), 256);
    forall i | 0 <= i < 256
      ensures ByteBits(Digest(data))[i] == bits[i]
    {
      FromBitsBit(bits[8 * (i / 8)..8 * (i / 8) + 8], i % 8);
    }
  }

  /** The lane code returns this very digest. */
  method Hash(data: seq<byte>) returns (digest: seq<byte>)
    ensures digest == Digest(data)
  {
    hide Digest, ByteBits, S.Keccak;
    digest := Keccak.Keccak256(data);
    DigestBits(data);
    ByteBitsInjective(digest, Digest(data));
  }

  // ---- Characters -----------------------------------------------------------

  predicate IsLowerHexLetter(c: char) { 'a' <= c <= 'f' }

  predicate IsUpperHexLetter(c: char) { 'A' <= c <= 'F' }

  predicate IsHex(c: char) { '0' <= c <= '9' || IsLowerHexLetter(c) || IsUpperHexLetter(c) }

  function LowerChar(c: char): char {
    if 'A' <= c <= 'Z' then (c as int + 32) as char else c
  }

  function UpperChar(c: char): char {
    if 'a' <= c <= 'z' then (c as int - 32) as char else c
  }

  function Lower(s: string): (l: string)
    ensures |l| == |s|
  {
    seq(|s|, i requires 0 <= i < |s| => LowerChar(s[i]))
  }

  function Upper(s: string): (u: string)
    ensures |u| == |s|
  {
    seq(|s|, i requires 0 <= i < |s| => UpperChar(s[i]))
  }

  /** What Python's str.strip takes off either end. */
  predicate IsSpace(c: char) {
    '\U{9}' <= c <= '\U{d}' || '\U{1c}' <= c <= ' ' || c == '\U{85}' || c == '\U{a0}' || c == '\U{1680}'
    || '\U{2000}' <= c <= '\U{200a}' || c == '\U{2028}' || c == '\U{2029}' || c == '\U{202f}'
    || c == '\U{205f}' || c == '\U{3000}'
  }

  function StripLeft(s: string): string {
    if s != [] && IsSpace(s[0]) then StripLeft(s[1..]) else s
  }

  function StripRight(s: string): string {
    if s != [] && IsSpace(s[|s| - 1]) then StripRight(s[..|s| - 1]) else s
  }

  function Strip(s: string): string { StripRight(StripLeft(s)) }

  // ---- The checksum ---------------------------------------------------------

  /** 0x and exactly forty hexadecimal characters. */
  predicate WellShaped(s: string) {
    |s| == 42 && s[0] == '0' && s[1] == 'x' && forall i :: 2 <= i < 42 ==> IsHex(s[i])
  }

  /** The address that was typed, whatever case it was typed in. */
  predicate SameAddress(a: string, b: string) {
    WellShaped(a) && WellShaped(b) && Lower(a[2..]) == Lower(b[2..])
  }

  function Ascii(s: string): seq<byte>
    requires forall i :: 0 <= i < |s| ==> s[i] as int < 0x80
  {
    seq(|s|, i requires 0 <= i < |s| => s[i] as int)
  }

  /** The value of hexadecimal character p of a digest. */
  function Nibble(digest: seq<byte>, p: nat): nat
    requires p < 2 * |digest|
  {
    if p % 2 == 0 then digest[p / 2] / 16 else digest[p / 2] % 16
  }

  const UPPERCASE_THRESHOLD: nat := 8

  /** eip55_checksum */
  function Eip55(address: string): string
    requires WellShaped(address)
  {
    var body := Lower(address[2..]);
    var digest := Digest(Ascii(body));
    "0x" + seq(|body|, i requires 0 <= i < |body| =>
                 if Nibble(digest, i) >= UPPERCASE_THRESHOLD then UpperChar(body[i]) else body[i])
  }

  predicate SingleCase(body: string) { body == Lower(body) || body == Upper(body) }

  /** canonical_contributor_address */
  function Canonical(typed: string): Result<string, Reason> {
    var trimmed := Strip(typed);
    if !WellShaped(trimmed) then Err(Shape)
    else if SingleCase(trimmed[2..]) then Ok(Lower(trimmed))
    else if trimmed != Eip55(trimmed) then Err(Checksum)
    else Ok(Lower(trimmed))
  }

  /** The checksummed spelling is the same address: only letter case was touched. */
  lemma ChecksumKeepsAddress(address: string)
    requires WellShaped(address)
    ensures SameAddress(Eip55(address), address)
  {
    hide Eip55, IsHex, LowerChar;
    var c := Eip55(address);
    ChecksummedChar(address, 2);
    forall i | 2 <= i < 42
      ensures IsHex(c[i]) && LowerChar(c[i]) == LowerChar(address[i])
    {
      ChecksummedChar(address, i);
      CaseAside(address[i]);
    }
    assert c[0] == c[..2][0] && c[1] == c[..2][1];
    assert Lower(c[2..]) == Lower(address[2..]);
  }

  lemma ChecksummedChar(address: string, i: nat)
    requires WellShaped(address) && 2 <= i < 42
    ensures var c := Eip55(address);
            |c| == 42 && c[..2] == "0x" && (c[i] == UpperChar(LowerChar(address[i])) || c[i] == LowerChar(address[i]))
  {
    hide Digest, LowerChar, UpperChar, IsHex;
  }

  lemma CaseAside(c: char)
    requires IsHex(c)
    ensures IsHex(LowerChar(c)) && IsHex(UpperChar(LowerChar(c)))
    ensures LowerChar(LowerChar(c)) == LowerChar(c) == LowerChar(UpperChar(LowerChar(c)))
  {
  }

  /** It depends on the address and not on how it was typed. */
  lemma ChecksumIgnoresCase(a: string, b: string)
    requires SameAddress(a, b)
    ensures Eip55(a) == Eip55(b)
  {
  }

  /** It is its own checksum. */
  lemma ChecksumIsFixpoint(address: string)
    requires WellShaped(address)
    ensures WellShaped(Eip55(address)) && Eip55(Eip55(address)) == Eip55(address)
  {
    hide Eip55;
    ChecksumKeepsAddress(address);
    ChecksumIgnoresCase(Eip55(address), address);
  }

  /** Each letter's case is one comparison of its digest nibble with eight. */
  lemma ChecksumCaseBits(address: string, i: nat)
    requires WellShaped(address) && i < 40
    requires IsLowerHexLetter(LowerChar(address[2 + i]))
    ensures IsUpperHexLetter(Eip55(address)[2 + i])
       <==> Nibble(Digest(Ascii(Lower(address[2..]))), i) >= UPPERCASE_THRESHOLD
  {
    hide Digest;
  }

  /** Bit 7 decides the high hexadecimal digit of a byte, bit 3 the low one. */
  lemma TopBitOfDigit(b: byte)
    ensures b / 16 >= 8 <==> Bit(b, 7)
    ensures b % 16 >= 8 <==> Bit(b, 3)
  {
    BitThree(b);
    BitThree(b / 16);
    FourOn(b);
  }

  lemma BitThree(n: nat)
    ensures Bit(n, 3) <==> n % 16 >= 8
  {
    assert Bit(n, 3) == Bit(n / 2 / 2 / 2, 0);
    assert n / 2 / 2 / 2 == n / 8;
  }

  lemma FourOn(n: nat)
    ensures Bit(n, 7) == Bit(n / 16, 3)
  {
    hide Bit;
    BitsOn(n, 5);
    BitsOn(n / 4, 3);
    assert n / 4 / 4 == n / 16;
  }

  lemma BitsOn(n: nat, i: nat)
    ensures Bit(n, i + 2) == Bit(n / 4, i)
  {
    assert Bit(n, i + 2) == Bit(n / 2 / 2, i);
    assert n / 2 / 2 == n / 4;
  }

  /** EIP-55 on the bits of the standard's own digest: letter i is upper case exactly when the highest bit of the i-th
      hexadecimal digit of the Keccak-256 of the lower-case address is set. Everything else stays as typed. */
  lemma ChecksumFollowsDigest(address: string, i: nat)
    requires WellShaped(address) && i < 40
    ensures var c, typed := Eip55(address), address[2 + i];
            |c| == 42 && c[..2] == address[..2]
            && if '0' <= typed <= '9' then c[2 + i] == typed
               else
                 var bits := S.Keccak(512, ByteBits(Ascii(Lower(address[2..]))), 256);
                 'A' <= c[2 + i] <= 'F' <==> bits[8 * (i / 2) + if i % 2 == 0 then 7 else 3]
  {
    hide S.Keccak, Bit, ByteBits;
    var data := Ascii(Lower(address[2..]));
    DigestBits(data);
    hide Digest;
    var digest := Digest(data);
    TopBitOfDigit(digest[i / 2]);
    BitOfBytes(digest, i / 2, if i % 2 == 0 then 7 else 3);
    assert Lower(address[2..])[i] == LowerChar(address[2 + i]);
    assert address[..2] == "0x";
  }

  lemma BitOfBytes(data: seq<byte>, i: nat, j: nat)
    requires i < |data| && j < 8
    ensures |ByteBits(data)| == 8 * |data| && ByteBits(data)[8 * i + j] == Bit(data[i], j)
  {
    hide Bit;
  }

  /** Ascii and Lower, character by character. */
  lemma LowerAscii(s: string, i: nat)
    requires (forall j :: 0 <= j < |s| ==> IsHex(s[j])) && i < |s|
    ensures forall j :: 0 <= j < |s| ==> Lower(s)[j] as int < 0x80
    ensures |Ascii(Lower(s))| == |s|
    ensures Ascii(Lower(s))[i] == s[i] as int + if 'A' <= s[i] <= 'F' then 32 else 0
  {
    assert forall j :: 0 <= j < |s| ==> Lower(s)[j] == LowerChar(s[j]) && IsHex(s[j]);
  }

  /** The characters that Unicode counts as white space, by code, with the four separators that Python adds. */
  const SPACES: set<int> := {
    9, 10, 11, 12, 13, 28, 29, 30, 31, 32, 133, 160, 5760, 8192, 8193, 8194, 8195, 8196, 8197, 8198, 8199, 8200, 8201, 8202,
    8232, 8233, 8239, 8287, 12288}

  lemma SpacesExactly(c: char)
    ensures IsSpace(c) <==> c as int in SPACES
  {
  }

  /** What is trimmed is white space at either end, and all of it. */
  lemma StripExactly(s: string) returns (i: nat, j: nat)
    ensures i <= j <= |s| && Strip(s) == s[i..j]
    ensures forall k :: (0 <= k < i || j <= k < |s|) ==> s[k] as int in SPACES
    ensures i < j ==> s[i] as int !in SPACES && s[j - 1] as int !in SPACES
  {
    hide IsSpace;
    forall c
      ensures IsSpace(c) <==> c as int in SPACES
    {
      SpacesExactly(c);
    }
    i := StripLeftExactly(s);
    var k := StripRightExactly(s[i..]);
    j := i + k;
    assert s[i..][..k] == s[i..j];
    forall m | j <= m < |s|
      ensures IsSpace(s[m])
    {
      assert s[i..][m - i] == s[m];
    }
    assert i < j ==> s[i..][0] == s[i] && s[i..][k - 1] == s[j - 1];
  }

  lemma {:induction false} StripLeftExactly(s: string) returns (i: nat)
    ensures i <= |s| && StripLeft(s) == s[i..]
    ensures forall k :: 0 <= k < i ==> IsSpace(s[k])
    ensures i < |s| ==> !IsSpace(s[i])
  {
    if s != [] && IsSpace(s[0]) {
      i := StripLeftExactly(s[1..]);
      i := i + 1;
      forall k | 0 <= k < i
        ensures IsSpace(s[k])
      {
        assert k > 0 ==> s[k] == s[1..][k - 1];
      }
    } else {
      i := 0;
    }
  }

  lemma {:induction false} StripRightExactly(s: string) returns (j: nat)
    ensures j <= |s| && StripRight(s) == s[..j]
    ensures forall k :: j <= k < |s| ==> IsSpace(s[k])
    ensures j > 0 ==> !IsSpace(s[j - 1])
  {
    if s != [] && IsSpace(s[|s| - 1]) {
      j := StripRightExactly(s[..|s| - 1]);
      assert s[..|s| - 1][..j] == s[..j];
    } else {
      j := |s|;
      assert s[..j] == s;
    }
  }

  /** One case throughout: no upper-case letter, or no lower-case one. */
  lemma SingleCaseExactly(body: string)
    ensures SingleCase(body) <==>
            (forall i :: 0 <= i < |body| ==> !('A' <= body[i] <= 'Z')) || (forall i :: 0 <= i < |body| ==> !('a' <= body[i] <= 'z'))
  {
    LowerChanges(body);
    UpperChanges(body);
  }

  lemma LowerChanges(s: string)
    ensures s == Lower(s) <==> forall i :: 0 <= i < |s| ==> !('A' <= s[i] <= 'Z')
  {
    if s == Lower(s) {
      forall i | 0 <= i < |s|
        ensures !('A' <= s[i] <= 'Z')
      {
        assert s[i] == Lower(s)[i];
      }
    }
  }

  lemma UpperChanges(s: string)
    ensures s == Upper(s) <==> forall i :: 0 <= i < |s| ==> !('a' <= s[i] <= 'z')
  {
    if s == Upper(s) {
      forall i | 0 <= i < |s|
        ensures !('a' <= s[i] <= 'z')
      {
        assert s[i] == Upper(s)[i];
      }
    }
  }

  /** Which refusal: a bad shape, or a well-shaped mixed-case spelling that is not the checksummed one. */
  lemma RefusedExactly(typed: string)
    ensures var t := Strip(typed);
            (Canonical(typed) == Err(Shape) <==>
             !(|t| == 42 && t[..2] == "0x" && forall i :: 2 <= i < 42 ==> t[i] in "0123456789abcdefABCDEF"))
            && (Canonical(typed) == Err(Checksum) <==> WellShaped(t) && !SingleCase(t[2..]) && t != Eip55(t))
  {
    hide Eip55, Strip, SingleCase;
    var t := Strip(typed);
    assert |t| == 42 && t[..2] == "0x" ==> t[0] == '0' && t[1] == 'x';
    assert forall i :: 2 <= i < |t| ==> (IsHex(t[i]) <==> t[i] in "0123456789abcdefABCDEF") by {
      forall i | 2 <= i < |t|
        ensures IsHex(t[i]) <==> t[i] in "0123456789abcdefABCDEF"
      {
        HexCharacters(t[i]);
      }
    }
  }

  lemma HexCharacters(c: char)
    ensures IsHex(c) <==> c in "0123456789abcdefABCDEF"
  {
  }

  /** Exactly what is accepted, and what is returned for it. */
  lemma AcceptedExactly(typed: string)
    ensures Canonical(typed).Ok? <==>
            var t := Strip(typed); WellShaped(t) && (SingleCase(t[2..]) || exists a :: WellShaped(a) && t == Eip55(a))
    ensures Canonical(typed).Ok? ==> Canonical(typed).value == Lower(Strip(typed))
  {
    hide Eip55, Strip, SingleCase;
    var t := Strip(typed);
    if WellShaped(t) {
      if t == Eip55(t) {
        assert exists a :: WellShaped(a) && t == Eip55(a);
      }
      if a :| WellShaped(a) && t == Eip55(a) {
        ChecksumIsFixpoint(a);
      }
    }
  }

  /** One address has at most one accepted mixed-case spelling, so re-casing any letters of a
      checksummed address is refused unless the result is in one case throughout. */
  lemma RecasedIsRefused(typed: string, other: string)
    requires SameAddress(Strip(typed), Strip(other)) && Canonical(typed).Ok?
    requires !SingleCase(Strip(typed)[2..]) && !SingleCase(Strip(other)[2..])
    ensures Canonical(other).Ok? <==> Strip(other) == Strip(typed)
  {
    hide Eip55, Strip, SingleCase;
    ChecksumIgnoresCase(Strip(typed), Strip(other));
  }

  lemma HexIsNotSpace(s: string)
    requires WellShaped(s)
    ensures Strip(s) == s
  {
    assert !IsSpace(s[0]) && !IsSpace(s[41]);
  }

  /** What is accepted is sent in one form, and that form is accepted as itself. */
  lemma CanonicalIdempotent(typed: string)
    requires Canonical(typed).Ok?
    ensures Canonical(Canonical(typed).value) == Canonical(typed)
  {
    hide Eip55, Strip;
    var t := Strip(typed);
    var c := Canonical(typed).value;
    assert forall i :: 0 <= i < 42 ==> c[i] == LowerChar(t[i]);
    HexIsNotSpace(c);
    assert c[2..] == Lower(c[2..]);
    assert Lower(c) == c;
  }
}
