/**
 What the two SEL decoders make of any text: which renderings of a record they read alike, which
 texts only one of them accepts, and where they take the record type from.
 */
module SelRendering {
  import opened Bits
  import opened Texts
  import opened Wrappers
  import opened SelRecord

  // ----- Texts both decoders clean alike -----

  /** The only white space is blanks. */
  predicate IsPlain(s: string) {
    forall i | 0 <= i < |s| :: s[i] == ' ' || !IsSpace(s[i])
  }

  /** Hex digits of either case, with blanks anywhere. */
  predicate IsBody(s: string) {
    forall i | 0 <= i < |s| :: IsHex(s[i]) || s[i] == ' '
  }

  predicate IsPrefix(p: string) {
    p == "" || p == HEX_PREFIX || Lower(p) == FLAT_PREFIX
  }

  /** A prefix, or none, before a plain text that holds no prefix of its own. */
  ghost predicate Readable(p: string, b: string) {
    && IsPrefix(p) && IsPlain(b) && !Contains(b, HEX_PREFIX)
    && (p == "" ==> !(FLAT_PREFIX <= Lower(TrimStart(b))))
  }

  lemma {:induction false} WithoutConcat(s: string, t: string, drop: char -> bool)
    ensures Without(s + t, drop) == Without(s, drop) + Without(t, drop)
  {
    if s == "" {
      assert s + t == t;
    } else {
      assert (s + t)[1..] == s[1..] + t;
      WithoutConcat(s[1..], t, drop);
    }
  }

  lemma {:induction false} PlainDigits(b: string)
    requires IsPlain(b)
    ensures WithoutSpaces(b) == WithoutBlanks(b)
    ensures forall i | 0 <= i < |WithoutBlanks(b)| :: !IsSpace(WithoutBlanks(b)[i])
  {
    if b != "" {
      PlainDigits(b[1..]);
    }
  }

  lemma {:induction false} TrimStartPlain(b: string)
    requires IsPlain(b)
    ensures IsPlain(TrimStart(b)) && WithoutBlanks(TrimStart(b)) == WithoutBlanks(b)
    ensures TrimStart(b) != "" ==> !IsSpace(TrimStart(b)[0])
    ensures LeadingBlanksOff(b) == TrimStart(b)
  {
    if b != "" && IsSpace(b[0]) {
      TrimStartPlain(b[1..]);
    }
  }

  lemma {:induction false} TrimEndPlain(b: string)
    requires IsPlain(b)
    ensures IsPlain(TrimEnd(b)) && WithoutBlanks(TrimEnd(b)) == WithoutBlanks(b)
  {
    if b != "" && IsSpace(b[|b| - 1]) {
      var init := b[..|b| - 1];
      TrimEndPlain(init);
      assert b == init + " ";
      WithoutConcat(init, " ", c => c == ' ');
    }
  }

  lemma {:induction false} TrimStartIsSuffix(s: string) returns (cut: string)
    ensures s == cut + TrimStart(s)
  {
    if s != "" && IsSpace(s[0]) {
      var rest := TrimStartIsSuffix(s[1..]);
      cut := [s[0]] + rest;
    } else {
      cut := "";
    }
  }

  lemma {:induction false} TrimEndIsPrefix(s: string) returns (cut: string)
    ensures s == TrimEnd(s) + cut
  {
    if s != "" && IsSpace(s[|s| - 1]) {
      var rest := TrimEndIsPrefix(s[..|s| - 1]);
      cut := rest + [s[|s| - 1]];
    } else {
      cut := "";
    }
  }

  /** Stripping cuts off both ends. */
  lemma StripIsPart(s: string) returns (before: string, after: string)
    ensures s == before + Strip(s) + after
  {
    before := TrimStartIsSuffix(s);
    after := TrimEndIsPrefix(TrimStart(s));
  }

  /** Trimming the end of a text leaves a prefix alone that stands before something else than blanks. */
  lemma {:induction false} TrimEndBehind(p: string, b: string)
    requires IsPlain(b) && WithoutBlanks(b) != ""
    ensures TrimEnd(p + b) == p + TrimEnd(b)
  {
    var last := b[|b| - 1];
    assert (p + b)[|p + b| - 1] == last;
    if IsSpace(last) {
      var init := b[..|b| - 1];
      assert b == init + " ";
      WithoutConcat(init, " ", c => c == ' ');
      TrimEndBehind(p, init);
      assert (p + b)[..|p + b| - 1] == p + init;
    }
  }

  // ----- Where the prefix occurs -----

  /** One character that differs rules an occurrence out. */
  lemma Mismatch(s: string, i: nat, k: nat)
    requires k < |HEX_PREFIX| && (i + k < |s| ==> s[i + k] != HEX_PREFIX[k])
    ensures !OccursAt(s, HEX_PREFIX, i)
  {
    if i + |HEX_PREFIX| <= |s| {
      assert s[i..i + |HEX_PREFIX|][k] == s[i + k];
    }
  }

  lemma PartContains(u: string, s: string, v: string)
    requires Contains(s, HEX_PREFIX)
    ensures Contains(u + s + v, HEX_PREFIX)
  {
    var i :| 0 <= i <= |s| && OccursAt(s, HEX_PREFIX, i);
    assert (u + s + v)[|u| + i..|u| + i + |HEX_PREFIX|] == s[i..i + |HEX_PREFIX|];
    assert OccursAt(u + s + v, HEX_PREFIX, |u| + i);
  }

  lemma PartClean(u: string, s: string, v: string)
    requires !Contains(u + s + v, HEX_PREFIX)
    ensures !Contains(s, HEX_PREFIX)
  {
    if Contains(s, HEX_PREFIX) {
      PartContains(u, s, v);
    }
  }

  lemma {:induction false} NoPiece(s: string, from: nat)
    requires from <= |s| && !Contains(s, HEX_PREFIX)
    ensures LastPiece(s, HEX_PREFIX, from) == s
    decreases |s| - from
  {
    assert !OccursAt(s, HEX_PREFIX, from);
    if from + |HEX_PREFIX| <= |s| {
      NoPiece(s, from + 1);
    }
  }

  lemma NoStart(s: string)
    requires !OccursAt(s, HEX_PREFIX, 0)
    ensures !(HEX_PREFIX <= s)
  {
    if |HEX_PREFIX| <= |s| {
      assert s[0..0 + |HEX_PREFIX|] == s[..|HEX_PREFIX|];
    }
  }

  lemma PieceBehindPrefix(b: string)
    requires !Contains(b, HEX_PREFIX)
    ensures Contains(HEX_PREFIX + b, HEX_PREFIX) && LastPiece(HEX_PREFIX + b, HEX_PREFIX, 0) == b
  {
    var s := HEX_PREFIX + b;
    assert OccursAt(s, HEX_PREFIX, 0);
    assert s[|HEX_PREFIX|..] == b;
    NoPiece(b, 0);
  }

  /** The one prefix does not begin inside the other. */
  lemma FlatHoldsNoMark(p: string, b: string, i: nat)
    requires Lower(p) == FLAT_PREFIX && i < |p|
    ensures !OccursAt(p + b, HEX_PREFIX, i)
  {
    assert LowerChar(p[i]) == FLAT_PREFIX[i] && (p + b)[i] == p[i];
    if i == 0 {
      assert LowerChar(p[8]) == FLAT_PREFIX[8] == ':' && (p + b)[8] == p[8];
      Mismatch(p + b, 0, 8);
    } else {
      NoOtherR(i);
      Mismatch(p + b, i, 0);
    }
  }

  lemma NoOtherR(i: nat)
    requires 0 < i < |FLAT_PREFIX|
    ensures FLAT_PREFIX[i] != 'r'
  {
    assert FLAT_PREFIX[1..] == "aw data:" && 'r' !in "aw data:";
    assert FLAT_PREFIX[i] == FLAT_PREFIX[1..][i - 1];
  }

  lemma FlatClean(p: string, b: string)
    requires Lower(p) == FLAT_PREFIX && !Contains(b, HEX_PREFIX)
    ensures !Contains(p + b, HEX_PREFIX)
  {
    if Contains(p + b, HEX_PREFIX) {
      var i :| 0 <= i <= |p + b| && OccursAt(p + b, HEX_PREFIX, i);
      if i < |p| {
        FlatHoldsNoMark(p, b, i);
      } else {
        assert (p + b)[i..i + |HEX_PREFIX|] == b[i - |p|..i - |p| + |HEX_PREFIX|];
        assert OccursAt(b, HEX_PREFIX, i - |p|);
      }
    }
  }

  /** A body of hex digits holds neither prefix. */
  lemma BodyReadable(p: string, b: string)
    requires IsPrefix(p) && IsBody(b)
    ensures Readable(p, b)
    ensures forall i | 0 <= i < |WithoutBlanks(b)| :: IsHex(WithoutBlanks(b)[i])
  {
    TrimStartPlain(b);
    BodyDigits(b);
    forall i | 0 <= i <= |b| ensures !OccursAt(b, HEX_PREFIX, i) {
      Mismatch(b, i, 0);
    }
    var cut := TrimStartIsSuffix(b);
    if TrimStart(b) != "" {
      assert TrimStart(b)[0] == b[|cut|];
      assert Lower(TrimStart(b))[0] != FLAT_PREFIX[0];
    }
  }

  lemma {:induction false} BodyDigits(b: string)
    requires IsBody(b)
    ensures forall i | 0 <= i < |WithoutBlanks(b)| :: IsHex(WithoutBlanks(b)[i])
  {
    if b != "" {
      BodyDigits(b[1..]);
      assert WithoutBlanks(b) == (if b[0] == ' ' then "" else [b[0]]) + WithoutBlanks(b[1..]);
    }
  }

  // ----- What each decoder is left with -----

  lemma StripPlain(b: string)
    requires IsPlain(b) && WithoutBlanks(b) != "" && !Contains(b, HEX_PREFIX)
    ensures IsPlain(Strip(b)) && WithoutBlanks(Strip(b)) == WithoutBlanks(b)
    ensures Strip(b) != "" && !IsSpace(Strip(b)[0])
    ensures Strip(b) <= TrimStart(b) && !Contains(Strip(b), HEX_PREFIX)
  {
    TrimStartPlain(b);
    TrimEndPlain(TrimStart(b));
    var cut := TrimEndIsPrefix(TrimStart(b));
    var before, after := StripIsPart(b);
    PartClean(before, Strip(b), after);
  }

  lemma LowerPrefix(s: string, t: string)
    requires s <= t && FLAT_PREFIX <= Lower(s)
    ensures FLAT_PREFIX <= Lower(t)
  {
    assert forall i | 0 <= i < |FLAT_PREFIX| :: Lower(t)[i] == Lower(s)[i];
  }

  lemma PythonCleansBare(b: string)
    requires Readable("", b) && WithoutBlanks(b) != ""
    ensures PythonClean(b) == Upper(WithoutBlanks(b))
  {
    StripPlain(b);
    NoPiece(Strip(b), 0);
    if FLAT_PREFIX <= Lower(Strip(b)) {
      LowerPrefix(Strip(b), TrimStart(b));
    }
  }

  lemma PlainEnd(b: string)
    requires IsPlain(b) && WithoutBlanks(b) != "" && !Contains(b, HEX_PREFIX)
    ensures IsPlain(TrimEnd(b)) && WithoutBlanks(TrimEnd(b)) == WithoutBlanks(b)
    ensures !Contains(TrimEnd(b), HEX_PREFIX)
  {
    TrimEndPlain(b);
    var cut := TrimEndIsPrefix(b);
    assert "" + TrimEnd(b) + cut == b;
    PartClean("", TrimEnd(b), cut);
  }

  /** Behind either prefix or none, Python is left with the characters of the body in upper case. */
  lemma PythonCleans(p: string, b: string)
    requires Readable(p, b) && WithoutBlanks(b) != ""
    ensures PythonClean(p + b) == Upper(WithoutBlanks(b))
  {
    if p == "" {
      assert p + b == b;
      PythonCleansBare(b);
    } else {
      var rest := TrimEnd(b);
      TrimEndBehind(p, b);
      PlainEnd(b);
      StripPlain(rest);
      assert p[0] == 'R' || LowerChar(p[0]) == 'r' by {
        assert HEX_PREFIX[0] == 'R' && FLAT_PREFIX[0] == 'r';
      }
      assert !IsSpace((p + b)[0]);
      assert Strip(p + b) == p + rest;
      if p == HEX_PREFIX {
        PieceBehindPrefix(rest);
      } else {
        FlatClean(p, rest);
        FlatStarts(p, rest);
      }
    }
  }

  lemma FlatStarts(p: string, b: string)
    requires Lower(p) == FLAT_PREFIX
    ensures FLAT_PREFIX <= Lower(p + b) && |p| == |FLAT_PREFIX| && (p + b)[|FLAT_PREFIX|..] == b
    ensures !(HEX_PREFIX <= p + b)
  {
    assert Lower(p + b)[..|FLAT_PREFIX|] == Lower(p);
    FlatHoldsNoMark(p, b, 0);
    NoStart(p + b);
  }

  /** And C++ with the characters as they are. */
  lemma CppCleans(p: string, b: string)
    requires Readable(p, b)
    ensures CppClean(p + b) == WithoutBlanks(b)
  {
    PlainDigits(b);
    TrimStartPlain(b);
    PlainDigits(TrimStart(b));
    if p == "" {
      assert p + b == b;
      NoPrefixBare(b);
    } else if p == HEX_PREFIX {
      assert (p + b)[|HEX_PREFIX|..] == b;
    } else {
      FlatStarts(p, b);
    }
  }

  lemma NoPrefixBare(b: string)
    requires Readable("", b)
    ensures !(HEX_PREFIX <= b) && !(FLAT_PREFIX <= Lower(b))
  {
    NoStart(b);
    assert FLAT_PREFIX[0] == 'r';
    if b != "" && IsSpace(b[0]) {
      assert Lower(b)[0] != 'r';
    } else {
      assert TrimStart(b) == b;
    }
  }

  // ----- A text without any character but blanks -----

  lemma {:induction false} WithoutShortens(s: string)
    ensures |WithoutBlanks(s)| <= |s|
  {
    if s != "" {
      WithoutShortens(s[1..]);
    }
  }

  lemma PartShorter(u: string, s: string, v: string)
    ensures |WithoutBlanks(s)| <= |WithoutBlanks(u + s + v)|
  {
    WithoutConcat(u + s, v, c => c == ' ');
    WithoutConcat(u, s, c => c == ' ');
  }

  lemma {:induction false} LastPieceIsSuffix(s: string, from: nat) returns (cut: string)
    requires from <= |s|
    ensures s == cut + LastPiece(s, HEX_PREFIX, from)
    decreases |s| - from
  {
    if from + |HEX_PREFIX| > |s| {
      cut := "";
    } else if OccursAt(s, HEX_PREFIX, from) {
      var n := from + |HEX_PREFIX|;
      var rest := LastPieceIsSuffix(s[n..], 0);
      cut := s[..n] + rest;
      assert s == s[..n] + s[n..];
    } else {
      cut := LastPieceIsSuffix(s, from + 1);
    }
  }

  lemma StripShorter(s: string)
    ensures |WithoutBlanks(Strip(s))| <= |WithoutBlanks(s)|
  {
    var before, after := StripIsPart(s);
    PartShorter(before, Strip(s), after);
  }

  lemma SuffixShorter(s: string, cut: string, rest: string)
    requires s == cut + rest
    ensures |WithoutBlanks(Strip(rest))| <= |WithoutBlanks(s)|
  {
    StripShorter(rest);
    PartShorter(cut, rest, "");
    assert cut + rest + "" == s;
  }

  /** Cleaning only takes characters away. */
  lemma PythonCleanShortens(raw: string)
    ensures |PythonClean(raw)| <= |WithoutBlanks(raw)|
  {
    var stripped := Strip(raw);
    StripShorter(raw);
    hide WithoutBlanks, Strip, LastPiece, Contains;
    if Contains(stripped, HEX_PREFIX) {
      var cut := LastPieceIsSuffix(stripped, 0);
      SuffixShorter(stripped, cut, LastPiece(stripped, HEX_PREFIX, 0));
    } else if FLAT_PREFIX <= Lower(stripped) {
      SuffixShorter(stripped, stripped[..|FLAT_PREFIX|], stripped[|FLAT_PREFIX|..]);
    }
  }

  lemma BlankTooShort(p: string, b: string)
    requires Readable(p, b) && WithoutBlanks(b) == ""
    ensures ParsePython(p + b).TooShort?
  {
    PythonCleanShortens(p + b);
    WithoutConcat(p, b, c => c == ' ');
    WithoutShortens(p);
    assert |p| <= 15;
  }

  // ----- Pairs of digits -----

  predicate AllHex(s: string) {
    forall i | 0 <= i < |s| :: IsHex(s[i])
  }

  function PairBytes(s: string): seq<Byte>
    requires AllHex(s)
  {
    if |s| < 2 then []
    else
      assert IsHex(s[0]) && IsHex(s[1]);
      var b: Byte := 16 * HexValue(s[0]) + HexValue(s[1]);
      [b] + PairBytes(s[2..])
  }

  /** Without white space, fromhex takes an even number of digits and nothing else. */
  lemma {:induction false} FromHexExact(s: string)
    requires |s| % 2 == 0 && forall i | 0 <= i < |s| :: !IsSpace(s[i])
    ensures FromHex(s).Some? <==> AllHex(s)
    ensures AllHex(s) ==> FromHex(s) == Some(PairBytes(s))
  {
    if s != "" {
      FromHexExact(s[2..]);
      assert AllHex(s) <==> IsHex(s[0]) && IsHex(s[1]) && AllHex(s[2..]) by {
        assert forall i | 2 <= i < |s| :: s[i] == s[2..][i - 2];
      }
    }
  }

  lemma {:induction false} PairBytesAt(s: string, i: nat)
    requires AllHex(s)
    requires 2 * i + 1 < |s|
    ensures |PairBytes(s)| == |s| / 2
    ensures PairBytes(s)[i] == 16 * HexValue(s[2 * i]) + HexValue(s[2 * i + 1])
  {
    PairBytesLength(s);
    if i > 0 {
      PairBytesAt(s[2..], i - 1);
      assert s[2..][2 * (i - 1)] == s[2 * i] && s[2..][2 * (i - 1) + 1] == s[2 * i + 1];
    }
  }

  lemma {:induction false} PairBytesLength(s: string)
    requires AllHex(s)
    ensures |PairBytes(s)| == |s| / 2
  {
    if |s| >= 2 {
      PairBytesLength(s[2..]);
    }
  }

  /** Every pair is one that C++ takes for a byte. */
  predicate PairsAccepted(digits: string, n: nat)
    requires 2 * n <= |digits|
  {
    forall i | 0 <= i < n :: PairValue(digits[2 * i], digits[2 * i + 1]) != -1
  }

  lemma {:induction false} PairsComplete(digits: string, n: nat)
    requires 2 * n <= |digits|
    ensures |Pairs(digits, n)| == n <==> PairsAccepted(digits, n)
  {
    PairsLength(digits, n);
    if n > 0 {
      PairsLength(digits, n - 1);
      PairsComplete(digits, n - 1);
      assert digits[2 * (n - 1)] == digits[2 * n - 2] && digits[2 * (n - 1) + 1] == digits[2 * n - 1];
      forall i | 0 <= i < n - 1 ensures PairsAccepted(digits, n) ==> PairValue(digits[2 * i], digits[2 * i + 1]) != -1 {
      }
      if PairsAccepted(digits, n - 1) && PairValue(digits[2 * n - 2], digits[2 * n - 1]) != -1 {
        forall i | 0 <= i < n ensures PairValue(digits[2 * i], digits[2 * i + 1]) != -1 {
          assert i == n - 1 || i < n - 1;
        }
      }
    }
  }

  lemma {:induction false} PairsOfDigits(digits: string, n: nat)
    requires 2 * n <= |digits| && AllHex(digits[..2 * n])
    ensures Pairs(digits, n) == PairBytes(digits[..2 * n])
    ensures PairsAccepted(digits, n)
  {
    var s := digits[..2 * n];
    PairBytesLength(s);
    if n > 0 {
      assert forall i | 0 <= i < 2 * n - 2 :: digits[..2 * n - 2][i] == s[i];
      PairsOfDigits(digits, n - 1);
      PairBytesLength(digits[..2 * n - 2]);
      assert IsHex(s[2 * n - 2]) && IsHex(s[2 * n - 1]);
      forall i | 0 <= i < n ensures Pairs(digits, n)[i] == PairBytes(s)[i] {
        PairBytesAt(s, i);
        if i < n - 1 {
          PairBytesAt(digits[..2 * n - 2], i);
        }
      }
    }
  }

  // ----- When a whole record is accepted alike -----

  lemma UpperCharKeeps()
    ensures forall c :: HexValue(UpperChar(c)) == HexValue(c)
    ensures forall c :: IsSpace(UpperChar(c)) <==> IsSpace(c)
  {
  }

  lemma UpperKeeps(s: string)
    ensures AllHex(Upper(s)) <==> AllHex(s)
    ensures (forall i | 0 <= i < |s| :: !IsSpace(s[i])) ==> forall i | 0 <= i < |s| :: !IsSpace(Upper(s)[i])
    ensures AllHex(s) ==> PairBytes(Upper(s)) == PairBytes(s)
  {
    UpperCharKeeps();
    hide HexValue, UpperChar, IsSpace, PairBytes;
    assert forall i | 0 <= i < |s| :: Upper(s)[i] == UpperChar(s[i]);
    if AllHex(s) {
      PairBytesLength(s);
      PairBytesLength(Upper(s));
      forall i | 0 <= i < |s| / 2 ensures PairBytes(Upper(s))[i] == PairBytes(s)[i] {
        PairBytesAt(s, i);
        PairBytesAt(Upper(s), i);
      }
    }
  }

  /** Python's verdict on the characters it is left with. */
  lemma PythonVerdict(digits: string)
    requires |digits| >= 32 && forall i | 0 <= i < |digits| :: !IsSpace(digits[i])
    ensures FromHex(Upper(digits)[..32]) == if AllHex(digits[..32]) then Some(PairBytes(digits[..32])) else None
    ensures AllHex(digits[..32]) ==> |PairBytes(digits[..32])| == 16
  {
    var s := digits[..32];
    assert Upper(digits)[..32] == Upper(s);
    UpperKeeps(s);
    FromHexExact(Upper(s));
    if AllHex(s) {
      PairBytesLength(s);
    }
  }

  /**
   Of a readable text Python takes sixteen pairs of digits, and C++ sixteen pairs of which it
   needs less.  So they accept alike exactly when the text is too short, its first 32 characters
   are digits, or one of its first sixteen pairs is one that C++ rejects too; where both accept,
   they read the same bytes, and where both reject, they give the same reason.
   */
  lemma AcceptAlike(p: string, b: string)
    requires Readable(p, b)
    ensures var d, py, cpp := WithoutBlanks(b), ParsePython(p + b), CppResult(p + b);
            && (py.Parsed? <==> |d| >= 32 && AllHex(d[..32]))
            && (cpp.Parsed? <==> |d| >= 32 && PairsAccepted(d, 16))
            && ((py.Parsed? <==> cpp.Parsed?) <==> |d| < 32 || AllHex(d[..32]) || !PairsAccepted(d, 16))
            && (py.Parsed? ==> cpp.Parsed? && py.record.rawBytes == Pairs(d, 16) && |Pairs(d, 16)| == 16
                               && py.record.timestamp == cpp.record.timestamp)
            && (!cpp.Parsed? ==> (py.TooShort? <==> cpp.TooShort?) && (py.BadHex? <==> cpp.BadHex?))
            && !py.Crash? && !cpp.Crash?
  {
    hide PythonClean, CppClean, FromHex, Pairs, Without, LittleEndian, PairBytes, AllHex, PairsAccepted;
    var d := WithoutBlanks(b);
    CppCleans(p, b);
    if d == "" {
      BlankTooShort(p, b);
    } else {
      PythonCleans(p, b);
    }
    if |d| >= 32 {
      PlainDigits(b);
      PythonVerdict(d);
      PairsLength(d, 16);
      PairsComplete(d, 16);
      if AllHex(d[..32]) {
        PairsOfDigits(d, 16);
      }
    }
  }

  /** "0g", sixteen times. */
  function HalfDigits(): (b: string)
    ensures |b| == 32 && forall i | 0 <= i < 32 :: b[i] == if i % 2 == 0 then '0' else 'g'
  {
    seq(32, (i: nat) => if i % 2 == 0 then '0' else 'g')
  }

  /** C++ reads zeros where Python rejects the text. */
  lemma HalfDigitsAccepted()
    ensures ParsePython(HalfDigits()).BadHex? && CppResult(HalfDigits()).Parsed?
  {
    hide ParsePython, CppResult, HalfDigits, Without, PairValue, Readable;
    var b := HalfDigits();
    NoBlanks(b);
    NotReadAsPrefix(b);
    assert "" + b == b;
    AcceptAlike("", b);
    HalfPairs(b);
    TooShortMeans("", b);
  }

  lemma TooShortMeans(p: string, b: string)
    requires Readable(p, b) && |WithoutBlanks(b)| >= 32
    ensures !ParsePython(p + b).TooShort?
  {
    hide Without, Readable;
    PythonCleans(p, b);
  }

  lemma HalfPairs(b: string)
    requires |b| == 32 && forall i | 0 <= i < 32 :: b[i] == if i % 2 == 0 then '0' else 'g'
    ensures PairsAccepted(b, 16) && !AllHex(b[..32])
  {
    assert !IsHex(b[..32][1]);
    forall i | 0 <= i < 16 ensures PairValue(b[2 * i], b[2 * i + 1]) != -1 {
      assert b[2 * i] == '0' && b[2 * i + 1] == 'g';
    }
  }

  lemma {:induction false} NoBlanks(b: string)
    requires ' ' !in b
    ensures WithoutBlanks(b) == b
  {
    if b != "" {
      NoBlanks(b[1..]);
      assert b == [b[0]] + b[1..];
    }
  }

  lemma NotReadAsPrefix(b: string)
    requires IsPlain(b) && 'R' !in b && 'r' !in b
    ensures Readable("", b)
  {
    forall i | 0 <= i <= |b| ensures !OccursAt(b, HEX_PREFIX, i) {
      Mismatch(b, i, 0);
    }
    var cut := TrimStartIsSuffix(b);
    if TrimStart(b) != "" {
      assert TrimStart(b)[0] == b[|cut|];
    }
  }

  // ----- Renderings of sixteen bytes -----

  /** The digits of the text are at least those of sixteen bytes, and the first 32 spell them. */
  ghost predicate Renders(body: string, bytes: seq<Byte>) {
    && IsBody(body) && |WithoutBlanks(body)| >= 32 && |bytes| == 16
    && forall i | 0 <= i < 16 :: Spells(WithoutBlanks(body), i, bytes[i])
  }

  predicate Spells(digits: string, i: nat, b: Byte)
    requires 2 * i + 1 < |digits|
  {
    IsHex(digits[2 * i]) && IsHex(digits[2 * i + 1]) && 16 * HexValue(digits[2 * i]) + HexValue(digits[2 * i + 1]) == b
  }

  lemma RenderedBytes(body: string, bytes: seq<Byte>)
    requires Renders(body, bytes)
    ensures AllHex(WithoutBlanks(body)[..32]) && PairBytes(WithoutBlanks(body)[..32]) == bytes
  {
    var d := WithoutBlanks(body);
    BodyDigits(body);
    PairBytesLength(d[..32]);
    forall i | 0 <= i < 16 ensures PairBytes(d[..32])[i] == bytes[i] {
      PairBytesAt(d[..32], i);
      assert Spells(d, i, bytes[i]);
    }
  }

  function PythonType(bytes: seq<Byte>): string
    requires |bytes| == 16
  {
    if bytes[2] == TYPE_PXE then "PxeBoot"
    else if bytes[2] == TYPE_HOST_OS then
      if bytes[13] == 1 then "HostOsModeChange" else if bytes[13] == 2 then "HostOsHandOff" else "HostOsUnknown"
    else "Unknown"
  }

  lemma FieldsOf(cleaned: string, bytes: seq<Byte>)
    requires |bytes| == 16
    ensures var isPxe, isOem := bytes[2] == TYPE_PXE, bytes[2] == TYPE_PXE || bytes[2] == TYPE_HOST_OS;
            PythonFields(cleaned, bytes) == Parsed(PythonRecord(
              PythonType(bytes), bytes[0] as int + 256 * bytes[1] as int, LittleEndian(bytes[3..7]), cleaned, bytes,
              if isPxe then None else Some(bytes[10]),
              if isPxe then None else Some(bytes[11]),
              if isPxe then None else Some(bytes[12]),
              if isOem then bytes[12..15] else bytes[13..16]))
  {
    RecordId(bytes);
    TimestampSlice(bytes);
    assert Slice(bytes, 13, 16) == bytes[13..16] && Slice(bytes, 12, 15) == bytes[12..15];
    hide LittleEndian, Slice;
  }

  /**
   Behind either prefix or none, any rendering of sixteen bytes, in either letter case, with
   blanks anywhere and further bytes behind, decodes to those bytes and one timestamp in both,
   and every further field is the bytes it stands for.
   */
  lemma BothDecode(prefix: string, body: string, bytes: seq<Byte>)
    requires IsPrefix(prefix) && Renders(body, bytes)
    ensures LittleEndian(bytes[3..7]) < WORD
    ensures var isPxe, isOem := bytes[2] == TYPE_PXE, bytes[2] == TYPE_PXE || bytes[2] == TYPE_HOST_OS;
            ParsePython(prefix + body) == Parsed(PythonRecord(
              PythonType(bytes), bytes[0] as int + 256 * bytes[1] as int, LittleEndian(bytes[3..7]),
              Upper(WithoutBlanks(body)), bytes,
              if isPxe then None else Some(bytes[10]),
              if isPxe then None else Some(bytes[11]),
              if isPxe then None else Some(bytes[12]),
              if isOem then bytes[12..15] else bytes[13..16]))
    ensures CppResult(prefix + body)
         == Parsed(CppRecord(CppType(bytes), LittleEndian(bytes[3..7]), WithoutBlanks(body)[..32]))
  {
    hide PythonClean, CppClean, FromHex, Pairs, Without, LittleEndian, Spells, PairBytes, AllHex, Readable, IsBody,
         PythonFields, PythonType, CppType, Slice;
    var d := WithoutBlanks(body);
    BodyReadable(prefix, body);
    RenderedBytes(body, bytes);
    PythonCleans(prefix, body);
    CppCleans(prefix, body);
    BodyPlain(body);
    PlainDigits(body);
    PythonVerdict(d);
    PairsOfDigits(d, 16);
    FieldsOf(Upper(d), bytes);
    TimestampSlice(bytes);
  }

  lemma TimestampSlice(bytes: seq<Byte>)
    requires |bytes| == 16
    ensures Slice(bytes, 3, 7) == bytes[3..7] && LittleEndian(bytes[3..7]) < WORD
  {
    TimestampBytes(bytes);
    hide LittleEndian;
    assert Slice(bytes, 3, 7) == bytes[3..7];
  }

  lemma BodyPlain(b: string)
    requires IsBody(b)
    ensures IsPlain(b)
  {
  }

  lemma RecordId(bytes: seq<Byte>)
    requires |bytes| == 16
    ensures LittleEndian(Slice(bytes, 0, 2)) == bytes[0] as int + 256 * bytes[1] as int
  {
    var low := bytes[0..2];
    assert low == [bytes[0], bytes[1]] && low[1..] == [bytes[1]];
    assert LittleEndian([bytes[1]]) == bytes[1];
  }

  /** The type byte is byte 2 for Python and byte 0 for C++; this is when the reported types agree all the same. */
  lemma TypesAgree(prefix: string, body: string, bytes: seq<Byte>)
    requires IsPrefix(prefix) && Renders(body, bytes)
    ensures ParsePython(prefix + body).Parsed? && CppResult(prefix + body).Parsed?
    ensures ParsePython(prefix + body).record.recordType == CppResult(prefix + body).record.recordType
       <==> && (bytes[2] == TYPE_PXE <==> bytes[0] == TYPE_PXE)
            && (bytes[2] == TYPE_HOST_OS ==> bytes[13] == 1 || bytes[13] == 2)
            && (bytes[13] == 1 || bytes[13] == 2 ==> (bytes[2] == TYPE_HOST_OS <==> bytes[0] == TYPE_HOST_OS))
  {
    BothDecode(prefix, body, bytes);
    hide ParsePython, CppResult, Renders;
  }

  /** "0000CA" and zeros: sixteen bytes with 0xCA in byte 2. */
  function PxeText(): (b: string)
    ensures |b| == 32 && forall i | 0 <= i < 32 :: b[i] == if i == 4 then 'C' else if i == 5 then 'A' else '0'
  {
    seq(32, (i: nat) => if i == 4 then 'C' else if i == 5 then 'A' else '0')
  }

  /** A PXE boot for Python, unknown to C++. */
  lemma TypesDiffer()
    ensures ParsePython(PxeText()).Parsed? && ParsePython(PxeText()).record.recordType == "PxeBoot"
    ensures CppResult(PxeText()).Parsed? && CppResult(PxeText()).record.recordType == "Unknown"
  {
    hide ParsePython, CppResult, PxeText, Without, Renders;
    var b := PxeText();
    var bytes: seq<Byte> := seq(16, (i: nat) => if i == 2 then TYPE_PXE else 0);
    NoBlanks(b);
    PxeRenders(b, bytes);
    assert "" + b == b;
    BothDecode("", b, bytes);
  }

  lemma PxeRenders(b: string, bytes: seq<Byte>)
    requires |b| == 32 && forall i | 0 <= i < 32 :: b[i] == if i == 4 then 'C' else if i == 5 then 'A' else '0'
    requires |bytes| == 16 && forall i | 0 <= i < 16 :: bytes[i] == if i == 2 then TYPE_PXE else 0
    requires WithoutBlanks(b) == b
    ensures Renders(b, bytes)
  {
    hide Without;
    forall i | 0 <= i < 16 ensures Spells(b, i, bytes[i]) {
      assert i != 2 ==> b[2 * i] == '0' && b[2 * i + 1] == '0';
    }
  }

  /** C++ takes a pair for a byte exactly when it starts with a digit, or is a sign and a digit; Python needs two digits. */
  lemma PairAccepted(c0: char, c1: char)
    ensures PairValue(c0, c1) != -1 <==> IsHex(c0) || ((c0 == '+' || c0 == '-') && IsHex(c1))
    ensures !IsSpace(c0) ==> (FromHex([c0, c1]).Some? <==> IsHex(c0) && IsHex(c1))
  {
    assert [c0, c1][2..] == "";
  }
}
