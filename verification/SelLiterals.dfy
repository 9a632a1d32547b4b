/**
 The SEL decoders on literals: the characters they tell apart, what cleaning does to any text, the
 record types by number, and a record from the documentation.
 */
module SelLiterals {
  import opened Bits
  import opened Texts
  import opened Wrappers
  import opened SelRecord
  import opened SelRendering

  // ----- Characters -----

  /** Sixteen digits in either case, and no others. */
  lemma HexDigits(v: nat, c: char)
    requires v < 16
    ensures HexValue("0123456789abcdef"[v]) == v && HexValue("0123456789ABCDEF"[v]) == v
    ensures c !in "0123456789abcdefABCDEF" ==> HexValue(c) == -1
  {
    if '0' <= c <= '9' {
      assert "0123456789abcdefABCDEF"[c as int - '0' as int] == c;
    } else if 'a' <= c <= 'f' {
      assert "0123456789abcdefABCDEF"[c as int - 'a' as int + 10] == c;
    } else if 'A' <= c <= 'F' {
      assert "0123456789abcdefABCDEF"[c as int - 'A' as int + 16] == c;
    }
  }

  lemma UpperLetters(i: nat, c: char)
    requires i < 26
    ensures UpperChar("abcdefghijklmnopqrstuvwxyz"[i]) == "ABCDEFGHIJKLMNOPQRSTUVWXYZ"[i]
    ensures c !in "abcdefghijklmnopqrstuvwxyz" ==> UpperChar(c) == c
  {
    if 'a' <= c <= 'z' {
      assert "abcdefghijklmnopqrstuvwxyz"[c as int - 'a' as int] == c;
    }
  }

  /** Blank, tab, line feed, vertical tab, form feed, carriage return. */
  lemma SpaceChars(c: char)
    ensures IsSpace(c) <==> c in [' ', '\t', '\n', '\U{0B}', '\U{0C}', '\r']
  {
  }

  lemma Prefixes(p: string)
    ensures IsPrefix(p) <==> p == "" || p == "Raw Data : Hex " || Lower(p) == "raw data:"
    ensures IsPrefix("Raw data:")
  {
    assert Lower("Raw data:") == "raw data:";
  }

  // ----- Cleaning -----

  /** Taking characters out goes character by character. */
  lemma WithoutOne(c: char, drop: char -> bool)
    ensures Without("", drop) == ""
    ensures Without([c], drop) == if drop(c) then "" else [c]
  {
    assert [c][1..] == "";
  }

  predicate AllSpace(s: string) {
    forall i | 0 <= i < |s| :: IsSpace(s[i])
  }

  lemma {:induction false} TrimStartOff(w: string, s: string)
    requires AllSpace(w) && (s == "" || !IsSpace(s[0]))
    ensures TrimStart(w + s) == s
  {
    if w == "" {
      assert w + s == s;
    } else {
      assert (w + s)[1..] == w[1..] + s;
      TrimStartOff(w[1..], s);
    }
  }

  lemma {:induction false} TrimEndOff(s: string, v: string)
    requires AllSpace(v) && (s == "" || !IsSpace(s[|s| - 1]))
    ensures TrimEnd(s + v) == s
  {
    if v == "" {
      assert s + v == s;
    } else {
      assert (s + v)[..|s + v| - 1] == s + v[..|v| - 1];
      TrimEndOff(s, v[..|v| - 1]);
    }
  }

  /** Stripping takes white space of every kind off both ends and stops there. */
  lemma StripMeaning(w: string, s: string, v: string)
    requires AllSpace(w) && AllSpace(v)
    requires s != "" && !IsSpace(s[0]) && !IsSpace(s[|s| - 1])
    ensures Strip(w + s + v) == s
  {
    assert w + s + v == w + (s + v);
    TrimStartOff(w, s + v);
    TrimEndOff(s, v);
  }

  lemma Behind(a: string, b: string, c: string)
    ensures a + HEX_PREFIX + (b + HEX_PREFIX + c) == (a + HEX_PREFIX + b) + HEX_PREFIX + c
  {
  }

  /** The text behind the last prefix, or the whole text if there is none. */
  lemma {:induction false} LastPieceMeaning(s: string, from: nat) returns (before: string)
    requires from <= |s| && forall i | 0 <= i < from :: !OccursAt(s, HEX_PREFIX, i)
    ensures !Contains(LastPiece(s, HEX_PREFIX, from), HEX_PREFIX)
    ensures Contains(s, HEX_PREFIX) ==> s == before + HEX_PREFIX + LastPiece(s, HEX_PREFIX, from)
    ensures !Contains(s, HEX_PREFIX) ==> LastPiece(s, HEX_PREFIX, from) == s
    decreases |s| - from
  {
    before := "";
    if from + |HEX_PREFIX| > |s| {
      assert forall i | 0 <= i <= |s| :: !OccursAt(s, HEX_PREFIX, i);
    } else if OccursAt(s, HEX_PREFIX, from) {
      var rest := s[from + |HEX_PREFIX|..];
      var inner := LastPieceMeaning(rest, 0);
      assert s == s[..from] + HEX_PREFIX + rest;
      ContainsMeaning(s[..from], HEX_PREFIX, rest);
      Behind(s[..from], inner, LastPiece(rest, HEX_PREFIX, 0));
      hide OccursAt, Contains;
      before := if Contains(rest, HEX_PREFIX) then s[..from] + HEX_PREFIX + inner else s[..from];
    } else {
      before := LastPieceMeaning(s, from + 1);
    }
  }

  lemma {:induction false} NoneLeft(s: string, drop: char -> bool)
    ensures forall i | 0 <= i < |Without(s, drop)| :: !drop(Without(s, drop)[i])
  {
    if s != "" {
      NoneLeft(s[1..], drop);
    }
  }

  /** C++ leaves no white space of any kind in any text. */
  lemma CppLeavesNoSpace(raw: string)
    ensures forall i | 0 <= i < |CppClean(raw)| :: !IsSpace(CppClean(raw)[i])
  {
    var body :=
      if HEX_PREFIX <= raw then raw[|HEX_PREFIX|..]
      else if FLAT_PREFIX <= Lower(raw) then LeadingBlanksOff(raw[|FLAT_PREFIX|..])
      else raw;
    NoneLeft(body, c => IsSpace(c));
    hide Without, LeadingBlanksOff;
    assert CppClean(raw) == Without(body, c => IsSpace(c));
  }

  // ----- Pairs and fields -----

  /** White space before a pair is skipped. */
  lemma FromHexSkips(c: char, s: string)
    requires IsSpace(c)
    ensures FromHex([c] + s) == FromHex(s)
  {
    assert ([c] + s)[1..] == s;
  }

  /** The byte that C++ makes of a pair: of two digits, of a digit and something else, of a sign and a digit. */
  lemma PairBytesOfCpp(c0: char, c1: char)
    ensures IsHex(c0) && IsHex(c1) ==> PairValue(c0, c1) == 16 * HexValue(c0) + HexValue(c1)
    ensures IsHex(c0) && !IsHex(c1) ==> PairValue(c0, c1) == HexValue(c0)
    ensures IsHex(c1) ==> PairValue('+', c1) == HexValue(c1)
    ensures IsHex(c1) ==> (PairValue('-', c1) + HexValue(c1)) % 256 == 0
  {
  }

  /** Python fails on a record exactly when it has no type byte, or is a host event without its subtype. */
  lemma CrashExactly(cleaned: string, raw: seq<Byte>)
    ensures PythonFields(cleaned, raw).Crash? <==> |raw| < 3 || (raw[2] == 0xD9 && |raw| < 14)
    ensures !PythonFields(cleaned, raw).Crash? ==>
              var r := PythonFields(cleaned, raw);
              && r.Parsed? && r.record.rawBytes == raw && r.record.rawHex == cleaned
              && (raw[2] != 0xCA && |raw| <= 10 ==> r.record.sensorType == None && r.record.eventData == [])
  {
  }

  /** The record types by number: byte 2 for Python, byte 0 for C++, byte 13 for the kind of host event. */
  lemma RecordTypes(bytes: seq<Byte>)
    requires |bytes| == 16
    ensures bytes[2] == 0xCA ==> PythonType(bytes) == "PxeBoot"
    ensures bytes[2] == 0xD9 ==>
              PythonType(bytes) == (match bytes[13] case 1 => "HostOsModeChange" case 2 => "HostOsHandOff" case _ => "HostOsUnknown")
    ensures bytes[2] !in {0xCA, 0xD9} ==> PythonType(bytes) == "Unknown"
    ensures bytes[0] == 0xCA ==> CppType(bytes) == "PxeBoot"
    ensures bytes[0] == 0xD9 ==>
              CppType(bytes) == (match bytes[13] case 1 => "HostOsModeChange" case 2 => "HostOsHandOff" case _ => "Unknown")
    ensures bytes[0] !in {0xCA, 0xD9} ==> CppType(bytes) == "Unknown"
  {
  }

  // ----- A documented record -----

  const PXE_START: string := "b70fcad117db6837010000002000FFFF"

  const PXE_BYTES: seq<Byte> := [0xB7, 0x0F, 0xCA, 0xD1, 0x17, 0xDB, 0x68, 0x37, 1, 0, 0, 0, 0x20, 0, 0xFF, 0xFF]

  lemma SpelledBytes0()
    ensures |PXE_START| == 32 && |PXE_BYTES| == 16
    ensures forall i | 0 <= i < 4 :: Spells(PXE_START, i, PXE_BYTES[i])
  {
    assert Spells(PXE_START, 0, PXE_BYTES[0]) && Spells(PXE_START, 1, PXE_BYTES[1]);
    assert Spells(PXE_START, 2, PXE_BYTES[2]) && Spells(PXE_START, 3, PXE_BYTES[3]);
    hide Spells;
  }

  lemma SpelledBytes4()
    ensures |PXE_START| == 32 && |PXE_BYTES| == 16
    ensures forall i | 4 <= i < 8 :: Spells(PXE_START, i, PXE_BYTES[i])
  {
    assert Spells(PXE_START, 4, PXE_BYTES[4]) && Spells(PXE_START, 5, PXE_BYTES[5]);
    assert Spells(PXE_START, 6, PXE_BYTES[6]) && Spells(PXE_START, 7, PXE_BYTES[7]);
    hide Spells;
  }

  lemma SpelledBytes8()
    ensures |PXE_START| == 32 && |PXE_BYTES| == 16
    ensures forall i | 8 <= i < 12 :: Spells(PXE_START, i, PXE_BYTES[i])
  {
    assert Spells(PXE_START, 8, PXE_BYTES[8]) && Spells(PXE_START, 9, PXE_BYTES[9]);
    assert Spells(PXE_START, 10, PXE_BYTES[10]) && Spells(PXE_START, 11, PXE_BYTES[11]);
    hide Spells;
  }

  lemma SpelledBytes12()
    ensures |PXE_START| == 32 && |PXE_BYTES| == 16
    ensures forall i | 12 <= i < 16 :: Spells(PXE_START, i, PXE_BYTES[i])
  {
    assert Spells(PXE_START, 12, PXE_BYTES[12]) && Spells(PXE_START, 13, PXE_BYTES[13]);
    assert Spells(PXE_START, 14, PXE_BYTES[14]) && Spells(PXE_START, 15, PXE_BYTES[15]);
    hide Spells;
  }

  lemma SpelledOut()
    ensures |PXE_START| == 32 && |PXE_BYTES| == 16
    ensures forall i | 0 <= i < 16 :: Spells(PXE_START, i, PXE_BYTES[i])
    ensures IsBody(PXE_START) && ' ' !in PXE_START
  {
    SpelledBytes0();
    SpelledBytes4();
    SpelledBytes8();
    SpelledBytes12();
    hide Spells, IsBody;
    SpelledIsBody(PXE_START, PXE_BYTES);
  }

  lemma SpelledIsBody(s: string, bytes: seq<Byte>)
    requires |s| == 32 && |bytes| == 16 && forall i | 0 <= i < 16 :: Spells(s, i, bytes[i])
    ensures IsBody(s) && ' ' !in s
  {
    assert !IsHex(' ');
    hide HexValue;
    forall j | 0 <= j < 32 ensures IsHex(s[j]) {
      assert Spells(s, j / 2, bytes[j / 2]);
      assert j == 2 * (j / 2) || j == 2 * (j / 2) + 1;
    }
  }

  /** The record that the documentation calls the start of a PXE boot: Python says so, C++ does not know it. */
  lemma PxeStart()
    ensures ParsePython(PXE_START).Parsed? && CppResult(PXE_START).Parsed?
    ensures ParsePython(PXE_START).record.recordType == "PxeBoot"
    ensures ParsePython(PXE_START).record.recordId == 0x0FB7
    ensures ParsePython(PXE_START).record.rawBytes == PXE_BYTES
    ensures CppResult(PXE_START).record.recordType == "Unknown"
    ensures ParsePython(PXE_START).record.timestamp == CppResult(PXE_START).record.timestamp == 0x68DB17D1
  {
    hide ParsePython, CppResult, Without, Spells, IsBody, LittleEndian, Upper;
    SpelledOut();
    NoBlanks(PXE_START);
    assert "" + PXE_START == PXE_START;
    assert Renders(PXE_START, PXE_BYTES);
    BothDecode("", PXE_START, PXE_BYTES);
    RecordTypes(PXE_BYTES);
    assert PXE_BYTES[3..7] == [0xD1, 0x17, 0xDB, 0x68];
    FourBytes(0xD1, 0x17, 0xDB, 0x68);
  }
}
