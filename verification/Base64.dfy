/**
 The base64 text of section 4 of RFC 4648: reference encoder and decoder, the canonical texts,
 and the laws that connect them.
 */
module Base64 {
  import opened Bits

  type Sextet = v: int | 0 <= v < 64

  // ----- The alphabet (table 1 of RFC 4648) -----

  function AlphabetChar(v: Sextet): char {
    if v < 26 then ('A' as int + v) as char
    else if v < 52 then ('a' as int + v - 26) as char
    else if v < 62 then ('0' as int + v - 52) as char
    else if v == 62 then '+'
    else '/'
  }

  /** The decoding table: -1 for every character outside the alphabet. */
  function DecodeChar(c: char): (v: int)
    ensures -1 <= v < 64
  {
    if 'A' <= c <= 'Z' then c as int - 'A' as int
    else if 'a' <= c <= 'z' then c as int - 'a' as int + 26
    else if '0' <= c <= '9' then c as int - '0' as int + 52
    else if c == '+' then 62
    else if c == '/' then 63
    else -1
  }

  predicate InAlphabet(c: char) {
    DecodeChar(c) != -1
  }

  lemma TableInverse(v: Sextet, c: char)
    ensures DecodeChar(AlphabetChar(v)) == v
    ensures InAlphabet(c) ==> AlphabetChar(DecodeChar(c)) == c
  {
  }

  /** The alphabet, range by range. */
  lemma UpperLetters(v: Sextet)
    requires v < 26
    ensures AlphabetChar(v) == "ABCDEFGHIJKLMNOPQRSTUVWXYZ"[v]
  {
  }

  lemma LowerLetters(v: Sextet)
    requires 26 <= v < 52
    ensures AlphabetChar(v) == "abcdefghijklmnopqrstuvwxyz"[v - 26]
  {
  }

  lemma Digits(v: Sextet)
    requires 52 <= v < 62
    ensures AlphabetChar(v) == "0123456789"[v - 52]
  {
  }

  lemma PlusAndSlash(v: Sextet)
    requires 62 <= v
    ensures AlphabetChar(v) == "+/"[v - 62]
  {
  }

  // ----- Regrouping: three bytes are four sextets -----

  function First(a: Byte): Sextet { a / 4 }

  function Second(a: Byte, b: Byte): Sextet { a as int % 4 * 16 + b / 16 }

  function Third(b: Byte, c: Byte): Sextet { b as int % 16 * 4 + c / 64 }

  function Fourth(c: Byte): Sextet { c % 64 }

  /** The byte made of the last 8 - k bits of u and the first k bits of v. */
  function Join(u: Sextet, v: Sextet, k: nat): Byte
    requires k == 2 || k == 4 || k == 6
  {
    if k == 2 then u as int * 4 + v / 16
    else if k == 4 then u as int % 16 * 16 + v / 4
    else u as int % 4 * 64 + v
  }

  /** Three bytes and four sextets are the same 24-bit number, most significant first. */
  lemma SameNumber(a: Byte, b: Byte, c: Byte)
    ensures First(a) as int * 262144 + Second(a, b) as int * 4096 + Third(b, c) as int * 64 + Fourth(c) as int
         == a as int * 65536 + b as int * 256 + c as int
  {
  }

  lemma RegroupBytes(a: Byte, b: Byte, c: Byte)
    ensures Join(First(a), Second(a, b), 2) == a
    ensures Join(Second(a, b), Third(b, c), 4) == b
    ensures Join(Third(b, c), Fourth(c), 6) == c
  {
  }

  lemma RegroupSextets(v0: Sextet, v1: Sextet, v2: Sextet, v3: Sextet)
    ensures var a, b, c := Join(v0, v1, 2), Join(v1, v2, 4), Join(v2, v3, 6);
            First(a) == v0 && Second(a, b) == v1 && Third(b, c) == v2 && Fourth(c) == v3
  {
  }

  // ----- Reference encoder and decoder -----

  /** Four characters, of which the last 4 - chars are padding. */
  function Quartet(v0: Sextet, v1: Sextet, v2: Sextet, v3: Sextet, chars: nat): string {
    [AlphabetChar(v0), AlphabetChar(v1),
     if chars > 2 then AlphabetChar(v2) else '=',
     if chars > 3 then AlphabetChar(v3) else '=']
  }

  function ByteAt(bs: seq<Byte>, i: nat): Byte {
    if i < |bs| then bs[i] else 0
  }

  function Min(a: int, b: int): int {
    if a < b then a else b
  }

  /** The text of the first group of up to three bytes, missing bytes read as zero. */
  function Group(bs: seq<Byte>): string
    requires bs != []
  {
    var a, b, c := bs[0], ByteAt(bs, 1), ByteAt(bs, 2);
    Quartet(First(a), Second(a, b), Third(b, c), Fourth(c), Min(|bs|, 3) + 1)
  }

  function From(bs: seq<Byte>, i: nat): seq<Byte> {
    if i < |bs| then bs[i..] else []
  }

  function Encode(bs: seq<Byte>): string
    decreases |bs|
  {
    if bs == [] then "" else Group(bs) + Encode(From(bs, 3))
  }

  function OneSextet(c: char): seq<Sextet> {
    if InAlphabet(c) then [DecodeChar(c)] else []
  }

  /** The values of the alphabet characters of a text, in order. */
  function Sextets(text: string): seq<Sextet> {
    if text == "" then [] else OneSextet(text[0]) + Sextets(text[1..])
  }

  /** Four sextets make three bytes; a shorter tail makes the bytes it fills. */
  function DecodeSextets(vs: seq<Sextet>): seq<Byte> {
    if |vs| < 2 then []
    else if |vs| == 2 then [Join(vs[0], vs[1], 2)]
    else if |vs| == 3 then [Join(vs[0], vs[1], 2), Join(vs[1], vs[2], 4)]
    else [Join(vs[0], vs[1], 2), Join(vs[1], vs[2], 4), Join(vs[2], vs[3], 6)] + DecodeSextets(vs[4..])
  }

  function Decode(text: string): seq<Byte> {
    DecodeSextets(Sextets(text))
  }

  /** Examples of section 10 of RFC 4648. */
  lemma TestVectors()
    ensures Encode([102]) == "Zg=="
    ensures Encode([102, 111]) == "Zm8="
    ensures Encode([102, 111, 111]) == "Zm9v"
    ensures Encode([251, 255, 191]) == "+/+/"
  {
    hide Encode;
    SingleGroup([251, 255, 191]);
    SingleGroup([102]);
    SingleGroup([102, 111]);
    SingleGroup([102, 111, 111]);
    assert First(102) == 25 && Second(102, 0) == 32 && Second(102, 111) == 38;
    assert First(251) == 62 && Second(251, 255) == 63 && Third(255, 191) == 62 && Fourth(191) == 63;
    assert Third(111, 0) == 60 && Third(111, 111) == 61 && Fourth(111) == 47;
    hide First, Second, Third, Fourth;
    assert AlphabetChar(25) == 'Z' && AlphabetChar(32) == 'g' && AlphabetChar(38) == 'm';
    assert AlphabetChar(62) == '+' && AlphabetChar(63) == '/';
    assert AlphabetChar(60) == '8' && AlphabetChar(61) == '9' && AlphabetChar(47) == 'v';
    hide AlphabetChar;
  }

  // ----- Length and concatenation -----

  lemma {:induction false} EncodeLength(bs: seq<Byte>)
    ensures |Encode(bs)| == (|bs| + 2) / 3 * 4
    decreases |bs|
  {
    hide First, Second, Third, Fourth, AlphabetChar;
    if bs != [] {
      EncodeLength(From(bs, 3));
      assert |Group(bs)| == 4;
    }
  }

  lemma {:induction false} EncodeConcat(p: seq<Byte>, s: seq<Byte>)
    requires |p| % 3 == 0
    ensures Encode(p + s) == Encode(p) + Encode(s)
  {
    hide First, Second, Third, Fourth, AlphabetChar;
    if p == [] {
      assert p + s == s;
    } else {
      assert From(p + s, 3) == From(p, 3) + s;
      assert Group(p + s) == Group(p);
      EncodeConcat(From(p, 3), s);
    }
  }

  lemma {:induction false} SextetsConcat(s: string, t: string)
    ensures Sextets(s + t) == Sextets(s) + Sextets(t)
  {
    if s == "" {
      assert s + t == t;
    } else {
      assert (s + t)[1..] == s[1..] + t;
      SextetsConcat(s[1..], t);
    }
  }

  lemma {:induction false} DecodeSextetsConcat(us: seq<Sextet>, vs: seq<Sextet>)
    requires |us| % 4 == 0
    ensures DecodeSextets(us + vs) == DecodeSextets(us) + DecodeSextets(vs)
  {
    hide Join;
    if us == [] {
      assert us + vs == vs;
    } else {
      assert (us + vs)[4..] == us[4..] + vs;
      DecodeSextetsConcat(us[4..], vs);
    }
  }

  lemma {:induction false} DecodeSextetsLength(vs: seq<Sextet>)
    ensures |DecodeSextets(vs)| == 3 * |vs| / 4
  {
    hide Join;
    if |vs| >= 4 {
      DecodeSextetsLength(vs[4..]);
    }
  }

  lemma SingleGroup(bs: seq<Byte>)
    requires 1 <= |bs| <= 3
    ensures Encode(bs) == Group(bs)
  {
    hide First, Second, Third, Fourth, AlphabetChar;
    assert Encode(bs) == Group(bs) + "";
  }

  // ----- Decoding undoes encoding -----

  lemma FourSextets(c0: char, c1: char, c2: char, c3: char)
    ensures Sextets([c0, c1, c2, c3]) == OneSextet(c0) + OneSextet(c1) + OneSextet(c2) + OneSextet(c3)
  {
    assert [c0, c1, c2, c3][1..] == [c1, c2, c3];
    assert [c1, c2, c3][1..] == [c2, c3];
    assert [c2, c3][1..] == [c3];
    assert Sextets([c3]) == OneSextet(c3);
    assert Sextets([c2, c3]) == OneSextet(c2) + Sextets([c3]);
    assert Sextets([c1, c2, c3]) == OneSextet(c1) + Sextets([c2, c3]);
  }

  lemma QuartetSextets(v0: Sextet, v1: Sextet, v2: Sextet, v3: Sextet, chars: nat)
    requires 2 <= chars <= 4
    ensures Sextets(Quartet(v0, v1, v2, v3, chars)) == [v0, v1, v2, v3][..chars]
  {
    assert !InAlphabet('=');
    hide DecodeChar, AlphabetChar;
    var q := Quartet(v0, v1, v2, v3, chars);
    TableInverse(v0, ' ');
    TableInverse(v1, ' ');
    TableInverse(v2, ' ');
    TableInverse(v3, ' ');
    FourSextets(q[0], q[1], q[2], q[3]);
    assert q == [q[0], q[1], q[2], q[3]];
  }

  lemma GroupDecodes(bs: seq<Byte>)
    requires bs != []
    ensures Decode(Group(bs)) == bs[..Min(|bs|, 3)]
    ensures |Sextets(Group(bs))| == Min(|bs|, 3) + 1
  {
    var a, b, c := bs[0], ByteAt(bs, 1), ByteAt(bs, 2);
    RegroupBytes(a, b, c);
    QuartetSextets(First(a), Second(a, b), Third(b, c), Fourth(c), Min(|bs|, 3) + 1);
    hide First, Second, Third, Fourth, Join, DecodeChar, AlphabetChar;
    var vs := Sextets(Group(bs));
    if |bs| >= 3 {
      assert vs[4..] == [];
      assert DecodeSextets(vs) == [a, b, c];
    }
  }

  lemma {:induction false} DecodeEncode(bs: seq<Byte>)
    ensures Decode(Encode(bs)) == bs
    decreases |bs|
  {
    hide First, Second, Third, Fourth, Join, DecodeChar, AlphabetChar;
    if bs != [] {
      var rest := From(bs, 3);
      GroupDecodes(bs);
      SextetsConcat(Group(bs), Encode(rest));
      if rest == [] {
        assert Sextets(Group(bs)) + [] == Sextets(Group(bs));
      } else {
        DecodeSextetsConcat(Sextets(Group(bs)), Sextets(Encode(rest)));
      }
      DecodeEncode(rest);
      assert bs == bs[..Min(|bs|, 3)] + rest;
    }
  }

  // ----- Encoding undoes decoding on canonical text -----

  ghost predicate PaddedBy(text: string, pad: nat) {
    && pad <= 2 && pad <= |text|
    && (forall i | 0 <= i < |text| - pad :: InAlphabet(text[i]))
    && (forall i | |text| - pad <= i < |text| :: text[i] == '=')
    && (pad == 1 ==> |text| >= 2 && DecodeChar(text[|text| - 2]) % 4 == 0)
    && (pad == 2 ==> |text| >= 3 && DecodeChar(text[|text| - 3]) % 16 == 0)
  }

  /**
   Canonical text (sections 3.2 and 3.5 of RFC 4648): a whole number of quartets, padding only
   at the very end, and the bits of the last character that carry no data are zero.
   */
  ghost predicate Canonical(text: string) {
    |text| % 4 == 0 && exists pad: nat :: PaddedBy(text, pad)
  }

  lemma SpareBits(a: Byte)
    ensures Second(a, 0) % 16 == 0 && Third(a, 0) % 4 == 0
  {
  }

  lemma QuartetPadded(v0: Sextet, v1: Sextet, v2: Sextet, v3: Sextet, chars: nat)
    requires 2 <= chars <= 4
    requires chars == 2 ==> v1 % 16 == 0
    requires chars == 3 ==> v2 % 4 == 0
    ensures PaddedBy(Quartet(v0, v1, v2, v3, chars), 4 - chars)
  {
    TableInverse(v0, ' ');
    TableInverse(v1, ' ');
    TableInverse(v2, ' ');
    TableInverse(v3, ' ');
    hide AlphabetChar, DecodeChar;
  }

  lemma GroupPadded(bs: seq<Byte>)
    requires bs != []
    ensures PaddedBy(Group(bs), 3 - Min(|bs|, 3))
  {
    hide First, Second, Third, Fourth, AlphabetChar, DecodeChar, Quartet, PaddedBy;
    var a, b, c := bs[0], ByteAt(bs, 1), ByteAt(bs, 2);
    SpareBits(a);
    SpareBits(b);
    QuartetPadded(First(a), Second(a, b), Third(b, c), Fourth(c), Min(|bs|, 3) + 1);
  }

  lemma EmptyPadded()
    ensures PaddedBy("", 0)
  {
  }

  lemma {:induction false} EncodeIsCanonical(bs: seq<Byte>)
    ensures Canonical(Encode(bs))
    decreases |bs|
  {
    hide First, Second, Third, Fourth, AlphabetChar, DecodeChar, PaddedBy;
    if bs == [] {
      EmptyPadded();
    } else {
      var rest := From(bs, 3);
      GroupPadded(bs);
      if rest == [] {
        assert Group(bs) + "" == Group(bs);
        assert PaddedBy(Encode(bs), 3 - |bs|);
      } else {
        EncodeIsCanonical(rest);
        EncodeLength(rest);
        var pad: nat :| PaddedBy(Encode(rest), pad);
        PaddedAppend(Group(bs), Encode(rest), pad);
      }
      EncodeLength(bs);
    }
  }

  lemma PaddedAppend(q: string, text: string, pad: nat)
    requires PaddedBy(q, 0) && PaddedBy(text, pad) && |text| >= 3
    ensures PaddedBy(q + text, pad)
  {
    hide DecodeChar;
  }

  /** Encoding undoes decoding exactly on canonical texts. */
  lemma EncodeDecode(text: string)
    ensures Encode(Decode(text)) == text <==> Canonical(text)
  {
    hide PaddedBy;
    if Encode(Decode(text)) == text {
      EncodeIsCanonical(Decode(text));
    }
    if Canonical(text) {
      var pad: nat :| PaddedBy(text, pad);
      EncodeDecodePadded(text, pad);
    }
  }

  lemma {:induction false} EncodeDecodePadded(text: string, pad: nat)
    requires |text| % 4 == 0 && PaddedBy(text, pad)
    ensures Encode(Decode(text)) == text
  {
    hide First, Second, Third, Fourth, Join, AlphabetChar, DecodeChar;
    if |text| > 4 {
      var q, rest := text[..4], text[4..];
      assert text == q + rest;
      assert PaddedBy(rest, pad) && PaddedBy(q, 0);
      EncodeDecodePadded(rest, pad);
      QuartetRoundTrip(q, 0);
      DecodeSextetsLength(Sextets(q));
      SextetsConcat(q, rest);
      DecodeSextetsConcat(Sextets(q), Sextets(rest));
      EncodeConcat(Decode(q), Decode(rest));
    } else if |text| == 4 {
      QuartetRoundTrip(text, pad);
    }
  }

  lemma QuartetRoundTrip(q: string, pad: nat)
    requires |q| == 4 && PaddedBy(q, pad)
    ensures |Sextets(q)| == 4 - pad
    ensures Encode(Decode(q)) == q
  {
    hide First, Second, Third, Fourth, Join, AlphabetChar, DecodeChar;
    var v0, v1 := DecodeChar(q[0]), DecodeChar(q[1]);
    var v2 := if pad < 2 then DecodeChar(q[2]) else 0;
    var v3 := if pad < 1 then DecodeChar(q[3]) else 0;
    TableInverse(0, q[0]);
    TableInverse(0, q[1]);
    TableInverse(0, q[2]);
    TableInverse(0, q[3]);
    assert q == Quartet(v0, v1, v2, v3, 4 - pad);
    QuartetSextets(v0, v1, v2, v3, 4 - pad);
    if pad == 0 {
      assert [v0, v1, v2, v3][..4] == [v0, v1, v2, v3];
      WholeQuartet(v0, v1, v2, v3);
    } else if pad == 1 {
      TailOfThree(v0, v1, v2);
    } else {
      TailOfTwo(v0, v1);
    }
  }

  lemma WholeQuartet(v0: Sextet, v1: Sextet, v2: Sextet, v3: Sextet)
    ensures Encode(DecodeSextets([v0, v1, v2, v3])) == Quartet(v0, v1, v2, v3, 4)
  {
    RegroupSextets(v0, v1, v2, v3);
    ShortQuartets(v0, v1, v2, v3);
    hide First, Second, Third, Fourth, Join, Quartet, Encode, DecodeSextets;
    var a, b, c := Join(v0, v1, 2), Join(v1, v2, 4), Join(v2, v3, 6);
    GroupText([a, b, c], a, b, c);
  }

  lemma TailOfThree(v0: Sextet, v1: Sextet, v2: Sextet)
    requires v2 % 4 == 0
    ensures Encode(DecodeSextets([v0, v1, v2])) == Quartet(v0, v1, v2, 0, 3)
  {
    var a, b := Join(v0, v1, 2), Join(v1, v2, 4);
    ShortQuartets(v0, v1, v2, 0);
    assert First(a) == v0 && Second(a, b) == v1 by { RegroupSextets(v0, v1, v2, 0); }
    assert Third(b, 0) == v2 && Fourth(0) == 0;
    GroupText([a, b], a, b, 0);
    hide First, Second, Third, Fourth, Join, Quartet, Encode, DecodeSextets;
  }

  lemma TailOfTwo(v0: Sextet, v1: Sextet)
    requires v1 % 16 == 0
    ensures Encode(DecodeSextets([v0, v1])) == Quartet(v0, v1, 0, 0, 2)
  {
    hide First, Second, Third, Fourth, Join, Quartet, Encode, DecodeSextets, Group, ByteAt, Min;
    ShortQuartets(v0, v1, 0, 0);
    LoneByteText(Join(v0, v1, 2));
    RegroupPair(v0, v1);
  }

  lemma LoneByteText(a: Byte)
    ensures Encode([a]) == Quartet(First(a), Second(a, 0), Third(0, 0), Fourth(0), 2)
  {
    GroupText([a], a, 0, 0);
  }

  lemma RegroupPair(v0: Sextet, v1: Sextet)
    requires v1 % 16 == 0
    ensures First(Join(v0, v1, 2)) == v0 && Second(Join(v0, v1, 2), 0) == v1
    ensures Third(0, 0) == 0 && Fourth(0) == 0
  {
  }

  lemma GroupText(bs: seq<Byte>, a: Byte, b: Byte, c: Byte)
    requires 1 <= |bs| <= 3
    requires a == bs[0] && b == ByteAt(bs, 1) && c == ByteAt(bs, 2)
    ensures Encode(bs) == Quartet(First(a), Second(a, b), Third(b, c), Fourth(c), |bs| + 1)
  {
    hide First, Second, Third, Fourth, Quartet;
    SingleGroup(bs);
  }

  lemma ShortQuartets(v0: Sextet, v1: Sextet, v2: Sextet, v3: Sextet)
    ensures DecodeSextets([v0, v1, v2, v3]) == [Join(v0, v1, 2), Join(v1, v2, 4), Join(v2, v3, 6)]
    ensures DecodeSextets([v0, v1, v2]) == [Join(v0, v1, 2), Join(v1, v2, 4)]
    ensures DecodeSextets([v0, v1]) == [Join(v0, v1, 2)]
  {
    hide Join;
    assert [v0, v1, v2, v3][4..] == [];
  }

  // ----- The decoder sees alphabet characters only -----

  lemma DecodeLength(text: string)
    ensures |Decode(text)| == 3 * |Sextets(text)| / 4
  {
    DecodeSextetsLength(Sextets(text));
  }

  lemma DecodeConcat(s: string, t: string)
    requires |Sextets(s)| % 4 == 0
    ensures Decode(s + t) == Decode(s) + Decode(t)
  {
    SextetsConcat(s, t);
    DecodeSextetsConcat(Sextets(s), Sextets(t));
  }

  /** Line breaks, padding and stray characters change nothing, wherever they stand. */
  lemma StraysIgnored(s: string, junk: string, t: string)
    requires forall c | c in junk :: !InAlphabet(c)
    ensures Decode(s + junk + t) == Decode(s + t)
  {
    StrayText(junk);
    SextetsConcat(s + junk, t);
    SextetsConcat(s, junk);
    SextetsConcat(s, t);
    assert Sextets(s) + [] == Sextets(s);
  }

  lemma {:induction false} StrayText(junk: string)
    requires forall c | c in junk :: !InAlphabet(c)
    ensures Sextets(junk) == []
  {
    if junk != "" {
      StrayText(junk[1..]);
    }
  }

  /** One more sextet completes a byte, unless it is the first of its quartet. */
  lemma {:induction false} DecodeAppend(vs: seq<Sextet>, v: Sextet)
    ensures DecodeSextets(vs + [v]) == DecodeSextets(vs)
              + if |vs| % 4 == 0 then [] else [Join(vs[|vs| - 1], v, 2 * (|vs| % 4))]
  {
    hide Join;
    if |vs| >= 4 {
      var head, rest := vs[..4], vs[4..];
      DecodeAppend(rest, v);
      DecodeSextetsConcat(head, rest);
      DecodeSextetsConcat(head, rest + [v]);
      assert head + rest == vs && head + (rest + [v]) == vs + [v];
    }
  }
}
