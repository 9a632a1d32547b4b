/**
 Decoding a raw IPMI SEL record from hex text, in the Python and in the C++ SDK: what each makes
 of prefixes, spaces and letter case, and where they part ways.
 */
module SelRecord {
  import opened Bits
  import opened Texts
  import opened Wrappers

  /** What the Python decoder returns, without its descriptive text. */
  datatype PythonRecord = PythonRecord(
    recordType: string,
    recordId: nat,
    timestamp: nat,
    rawHex: string,
    rawBytes: seq<Byte>,
    sensorType: Option<Byte>,
    sensorNumber: Option<Byte>,
    eventDirType: Option<Byte>,
    eventData: seq<Byte>)

  datatype CppRecord = CppRecord(recordType: string, timestamp: nat, rawHex: string)

  /** Crash stands for an index error on a record that decoded to too few bytes. */
  datatype Outcome<R> = TooShort | BadHex | Crash | Parsed(record: R)

  const HEX_PREFIX: string := "Raw Data : Hex "
  const FLAT_PREFIX: string := "raw data:"

  // ----- Characters and texts -----

  predicate IsSpace(c: char) {
    c == ' ' || ('\t' <= c <= '\r')
  }

  function UpperChar(c: char): char {
    if 'a' <= c <= 'z' then (c as int - 32) as char else c
  }

  function Upper(s: string): (r: string)
    ensures |r| == |s| && forall i | 0 <= i < |s| :: r[i] == UpperChar(s[i])
  {
    seq(|s|, i requires 0 <= i < |s| => UpperChar(s[i]))
  }

  /** -1 for a character that is no hex digit. */
  function HexValue(c: char): (v: int)
    ensures -1 <= v < 16
  {
    if '0' <= c <= '9' then c as int - '0' as int
    else if 'a' <= c <= 'f' then c as int - 'a' as int + 10
    else if 'A' <= c <= 'F' then c as int - 'A' as int + 10
    else -1
  }

  predicate IsHex(c: char) {
    HexValue(c) != -1
  }

  function TrimStart(s: string): string {
    if s != "" && IsSpace(s[0]) then TrimStart(s[1..]) else s
  }

  function TrimEnd(s: string): string {
    if s != "" && IsSpace(s[|s| - 1]) then TrimEnd(s[..|s| - 1]) else s
  }

  function Strip(s: string): string {
    TrimEnd(TrimStart(s))
  }

  function Without(s: string, drop: char -> bool): string {
    if s == "" then "" else (if drop(s[0]) then "" else [s[0]]) + Without(s[1..], drop)
  }

  function WithoutBlanks(s: string): string {
    Without(s, c => c == ' ')
  }

  function WithoutSpaces(s: string): string {
    Without(s, c => IsSpace(c))
  }

  /** s.split(word)[-1]. */
  function LastPiece(s: string, word: string, from: nat): string
    requires word != "" && from <= |s|
    decreases |s| - from
  {
    if from + |word| > |s| then s
    else if OccursAt(s, word, from) then LastPiece(s[from + |word|..], word, 0)
    else LastPiece(s, word, from + 1)
  }

  // ----- Python -----

  /** bytes.fromhex: pairs of digits, with white space allowed between pairs. */
  function FromHex(s: string): Option<seq<Byte>> {
    if s == "" then Some([])
    else if IsSpace(s[0]) then FromHex(s[1..])
    else if |s| < 2 || !IsHex(s[0]) || !IsHex(s[1]) then None
    else
      var rest := FromHex(s[2..]);
      if rest.Some? then Some([16 * HexValue(s[0]) + HexValue(s[1])] + rest.value) else None
  }

  function LittleEndian(bs: seq<Byte>): nat {
    if bs == [] then 0 else bs[0] + 256 * LittleEndian(bs[1..])
  }

  function Slice(bs: seq<Byte>, lo: nat, hi: nat): seq<Byte>
    requires lo <= hi
  {
    if |bs| <= lo then [] else if |bs| <= hi then bs[lo..] else bs[lo..hi]
  }

  const TYPE_PXE: Byte := 0xCA
  const TYPE_HOST_OS: Byte := 0xD9

  function PythonClean(raw: string): string {
    var stripped := Strip(raw);
    var body :=
      if Contains(stripped, HEX_PREFIX) then Strip(LastPiece(stripped, HEX_PREFIX, 0))
      else if FLAT_PREFIX <= Lower(stripped) then Strip(stripped[|FLAT_PREFIX|..])
      else stripped;
    Upper(WithoutBlanks(body))
  }

  function At(bs: seq<Byte>, i: nat): Option<Byte> {
    if i < |bs| then Some(bs[i]) else None
  }

  function ParsePython(raw: string): Outcome<PythonRecord> {
    var cleaned := PythonClean(raw);
    if |cleaned| < 32 then TooShort
    else
      var decoded := FromHex(cleaned[..32]);
      if decoded.None? then BadHex else PythonFields(cleaned, decoded.value)
  }

  function PythonFields(cleaned: string, raw: seq<Byte>): Outcome<PythonRecord> {
    if |raw| < 3 then Crash
    else
      var id, timestamp := LittleEndian(Slice(raw, 0, 2)), LittleEndian(Slice(raw, 3, 7));
      if raw[2] == TYPE_PXE then
        Parsed(PythonRecord("PxeBoot", id, timestamp, cleaned, raw, None, None, None, Slice(raw, 12, 15)))
      else if raw[2] == TYPE_HOST_OS then
        if |raw| < 14 then Crash
        else
          var recordType :=
            if raw[13] == 1 then "HostOsModeChange" else if raw[13] == 2 then "HostOsHandOff" else "HostOsUnknown";
          Parsed(PythonRecord(recordType, id, timestamp, cleaned, raw,
                              Some(raw[10]), Some(raw[11]), Some(raw[12]), Slice(raw, 12, 15)))
      else
        Parsed(PythonRecord("Unknown", id, timestamp, cleaned, raw,
                            At(raw, 10), At(raw, 11), At(raw, 12), Slice(raw, 13, 16)))
  }

  // ----- C++ -----

  /** std::stoul on a pair in base 16, cast to a byte; -1 where it throws. */
  function PairValue(c0: char, c1: char): (v: int)
    ensures -1 <= v < 256
  {
    if IsHex(c0) then
      if IsHex(c1) then 16 * HexValue(c0) + HexValue(c1) else HexValue(c0)
    else if c0 == '+' && IsHex(c1) then HexValue(c1)
    else if c0 == '-' && IsHex(c1) then (256 - HexValue(c1)) % 256
    else -1
  }

  function CppClean(raw: string): string {
    WithoutSpaces(
      if HEX_PREFIX <= raw then raw[|HEX_PREFIX|..]
      else if FLAT_PREFIX <= Lower(raw) then LeadingBlanksOff(raw[|FLAT_PREFIX|..])
      else raw)
  }

  /** Leading blanks and tabs only. */
  function LeadingBlanksOff(s: string): string {
    if s != "" && (s[0] == ' ' || s[0] == '\t') then LeadingBlanksOff(s[1..]) else s
  }

  /** The bytes of the pairs up to the first pair that stoul rejects. */
  function Pairs(s: string, n: nat): seq<Byte>
    requires 2 * n <= |s|
  {
    if n == 0 then []
    else
      var before, v := Pairs(s, n - 1), PairValue(s[2 * n - 2], s[2 * n - 1]);
      if |before| < n - 1 || v == -1 then before else before + [v]
  }

  function CppType(bytes: seq<Byte>): string
    requires |bytes| == 16
  {
    if bytes[0] == TYPE_PXE then "PxeBoot"
    else if bytes[0] == TYPE_HOST_OS then
      if bytes[13] == 1 then "HostOsModeChange" else if bytes[13] == 2 then "HostOsHandOff" else "Unknown"
    else "Unknown"
  }

  function CppResult(raw: string): Outcome<CppRecord> {
    var hex := CppClean(raw);
    if |hex| < 32 then TooShort
    else
      var bytes := Pairs(hex, 16);
      if |bytes| < 16 then BadHex
      else
        PairsLength(hex, 16);
        Parsed(CppRecord(CppType(bytes), LittleEndian(Slice(bytes, 3, 7)), hex[..32]))
  }

  lemma {:induction false} PairsLength(s: string, n: nat)
    requires 2 * n <= |s|
    ensures |Pairs(s, n)| <= n
  {
    if n > 0 {
      PairsLength(s, n - 1);
    }
  }

  function ShiftOr(b3: Byte, b4: Byte, b5: Byte, b6: Byte): nat {
    Or(Or(Or(b3, Shl(b4, 8)), Shl(b5, 16)), Shl(b6, 24))
  }

  /** Or-ing shifted bytes is the positional sum. */
  lemma ShiftOrIsSum(b3: Byte, b4: Byte, b5: Byte, b6: Byte)
    ensures ShiftOr(b3, b4, b5, b6) == LittleEndian([b3, b4, b5, b6]) < WORD
  {
    ShiftedBytes(b4, b5, b6);
    hide Shl, Or, Pow2;
    SmallPowers();
    var s4, s5, s6 := b4 as int * 256, b5 as int * 65536, b6 as int * 0x100_0000;
    OrSwap(b3, s4);
    OrDisjoint(b4, b3, 8);
    OrSwap(b3 as int + s4, s5);
    OrDisjoint(b5, b3 as int + s4, 16);
    OrSwap(b3 as int + s4 + s5, s6);
    OrDisjoint(b6, b3 as int + s4 + s5, 24);
    FourBytes(b3, b4, b5, b6);
  }

  lemma ShiftedBytes(b4: Byte, b5: Byte, b6: Byte)
    ensures Shl(b4, 8) == b4 as int * 256
    ensures Shl(b5, 16) == b5 as int * 65536
    ensures Shl(b6, 24) == b6 as int * 0x100_0000
  {
    SmallPowers();
  }

  lemma FourBytes(b3: Byte, b4: Byte, b5: Byte, b6: Byte)
    ensures LittleEndian([b3, b4, b5, b6]) == b3 as int + b4 as int * 256 + b5 as int * 65536 + b6 as int * 0x100_0000
  {
    assert [b3, b4, b5, b6][1..] == [b4, b5, b6];
    assert [b4, b5, b6][1..] == [b5, b6];
    assert [b5, b6][1..] == [b6];
    assert LittleEndian([b6]) == b6;
    assert LittleEndian([b5, b6]) == b5 as int + 256 * b6;
  }

  lemma {:induction false} OrSwap(x: nat, y: nat)
    ensures Or(x, y) == Or(y, x)
    decreases x + y
  {
    if x + y > 0 {
      OrSwap(x / 2, y / 2);
    }
  }

  lemma TimestampBytes(bytes: seq<Byte>)
    requires |bytes| == 16
    ensures ShiftOr(bytes[3], bytes[4], bytes[5], bytes[6]) == LittleEndian(Slice(bytes, 3, 7)) < WORD
  {
    hide ShiftOr, LittleEndian;
    ShiftOrIsSum(bytes[3], bytes[4], bytes[5], bytes[6]);
    assert bytes[3..7] == [bytes[3], bytes[4], bytes[5], bytes[6]];
  }

  method ParseCpp(raw: string) returns (result: Outcome<CppRecord>)
    ensures result == CppResult(raw)
  {
    hide ShiftOr, LittleEndian, Slice, PairValue, Without, LeadingBlanksOff;
    var hex := raw;
    if HEX_PREFIX <= hex {
      hex := hex[|HEX_PREFIX|..];
    } else {
      var lowerHex := Lower(hex);
      if FLAT_PREFIX <= lowerHex {
        hex := hex[|FLAT_PREFIX|..];
        hex := LeadingBlanksOff(hex);
      }
    }
    hex := WithoutSpaces(hex);
    assert hex == CppClean(raw);
    if |hex| < 32 { return TooShort; }
    var bytes: seq<Byte> := [];
    for i := 0 to 16
      invariant bytes == Pairs(hex, i) && |bytes| == i
    {
      var v := PairValue(hex[2 * i], hex[2 * i + 1]);
      if v == -1 {
        PairsStop(hex, i + 1, 16);
        return BadHex;
      }
      bytes := bytes + [v];
    }
    TimestampBytes(bytes);
    var recordType: string;
    if bytes[0] == TYPE_PXE {
      recordType := "PxeBoot";
    } else if bytes[0] == TYPE_HOST_OS {
      if bytes[13] == 1 { recordType := "HostOsModeChange"; }
      else if bytes[13] == 2 { recordType := "HostOsHandOff"; }
      else { recordType := "Unknown"; }
    } else {
      recordType := "Unknown";
    }
    return Parsed(CppRecord(recordType, ShiftOr(bytes[3], bytes[4], bytes[5], bytes[6]), hex[..32]));
  }

  lemma {:induction false} PairsStop(s: string, n: nat, m: nat)
    requires n <= m && 2 * m <= |s| && |Pairs(s, n)| < n
    ensures |Pairs(s, m)| < m
    decreases m
  {
    if n < m {
      PairsStop(s, n, m - 1);
    }
  }
}
