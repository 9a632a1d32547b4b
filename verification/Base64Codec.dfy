/**
 The hand-written base64 loops of the C++ SDK, with their 32-bit arithmetic, each proved to
 compute the reference function: the block encoder and the streaming decoder of the RAS
 service, and the accumulator encoder behind the basic authentication header.
 */
module Base64Codec {
  import opened Bits
  import opened Base64

  // ----- The block encoder -----

  /** One table index of the block encoder: (b >> shift) & 0x3F. */
  function BlockIndex(b: Word, shift: nat): Sextet {
    AndMask(Shr(b, shift), 6);
    SmallPowers();
    And(Shr(b, shift), 0x3F)
  }

  function Pack(a: Byte, b: Byte, c: Byte): Word {
    a as int * 65536 + b as int * 256 + c
  }

  lemma BlockWord(a: Byte, b: Byte, c: Byte)
    ensures Shl(a, 16) == Pack(a, 0, 0)
    ensures Or(Shl(a, 16), Shl(b, 8)) == Pack(a, b, 0)
    ensures Or(Pack(a, b, 0), c) == Pack(a, b, c)
  {
    SmallPowers();
    assert Shl(a, 16) == a as int * 65536;
    assert Shl(b, 8) == b as int * 256;
    hide Shl, Or, Pow2;
    OrDisjoint(a, b as int * 256, 16);
    OrDisjoint(a as int * 256 + b, c, 8);
  }

  /** The 24-bit number read six bits at a time is the regrouping of its three bytes. */
  lemma BlockFields(a: Byte, b: Byte, c: Byte)
    ensures var n := Pack(a, b, c);
            && BlockIndex(n, 18) == First(a)
            && BlockIndex(n, 12) == Second(a, b)
            && BlockIndex(n, 6) == Third(b, c)
            && BlockIndex(n, 0) == Fourth(c)
  {
    var n := Pack(a, b, c);
    SmallPowers();
    AndMask(Shr(n, 18), 6);
    AndMask(Shr(n, 12), 6);
    AndMask(Shr(n, 6), 6);
    AndMask(Shr(n, 0), 6);
    PackFields(a, b, c);
  }

  lemma PackFields(a: Byte, b: Byte, c: Byte)
    ensures var n := Pack(a, b, c);
            && n / 262144 % 64 == First(a)
            && n / 4096 % 64 == Second(a, b)
            && n / 64 % 64 == Third(b, c)
            && n % 64 == Fourth(c)
  {
    var n := Pack(a, b, c);
    var a1, a0 := a / 4, a as int % 4;
    var b1, b0 := b / 16, b as int % 16;
    var c1, c0 := c / 64, c as int % 64;
    DivModUnique(n, 262144, a1, a0 * 65536 + b as int * 256 + c);
    DivModUnique(n, 4096, a1 * 64 + a0 * 16 + b1, b0 * 256 + c);
    DivModUnique(n / 4096, 64, a1, a0 * 16 + b1);
    DivModUnique(n, 64, a1 * 4096 + a0 * 1024 + b1 * 64 + b0 * 4 + c1, c0);
    DivModUnique(n / 64, 64, a1 * 64 + a0 * 16 + b1, b0 * 4 + c1);
  }

  /** The four characters of one round of the block encoder. */
  lemma BlockText(rest: seq<Byte>, b: Word)
    requires rest != [] && b == Pack(rest[0], ByteAt(rest, 1), ByteAt(rest, 2))
    ensures Encode(rest) == [AlphabetChar(BlockIndex(b, 18)), AlphabetChar(BlockIndex(b, 12)),
                             if |rest| > 1 then AlphabetChar(BlockIndex(b, 6)) else '=',
                             if |rest| > 2 then AlphabetChar(BlockIndex(b, 0)) else '=']
                            + Encode(From(rest, 3))
  {
    hide First, Second, Third, Fourth, AlphabetChar, BlockIndex, Pack;
    BlockFields(rest[0], ByteAt(rest, 1), ByteAt(rest, 2));
  }

  lemma AppendFour(s: string, c0: char, c1: char, c2: char, c3: char, rest: string)
    ensures s + [c0] + [c1] + [c2] + [c3] + rest == s + ([c0, c1, c2, c3] + rest)
  {
  }

  method EncodeBlocks(data: seq<Byte>) returns (out: string)
    ensures out == Encode(data)
  {
    out := "";
    var i := 0;
    assert From(data, 0) == data;
    while i < |data|
      invariant 0 <= i
      invariant out + Encode(From(data, i)) == Encode(data)
    {
      hide Encode, AlphabetChar, BlockIndex, Pack, Or, Shl;
      ghost var before, rest := out, From(data, i);
      BlockWord(data[i], ByteAt(rest, 1), ByteAt(rest, 2));
      var b: Word := Shl(data[i], 16);
      if i + 1 < |data| { b := Or(b, Shl(data[i + 1], 8)); }
      if i + 2 < |data| { b := Or(b, data[i + 2]); }
      BlockText(rest, b);
      assert From(data, i + 3) == From(rest, 3);
      out := out + [AlphabetChar(BlockIndex(b, 18))];
      out := out + [AlphabetChar(BlockIndex(b, 12))];
      out := out + [if i + 1 < |data| then AlphabetChar(BlockIndex(b, 6)) else '='];
      out := out + [if i + 2 < |data| then AlphabetChar(BlockIndex(b, 0)) else '='];
      AppendFour(before, out[|before|], out[|before| + 1], out[|before| + 2], out[|before| + 3], Encode(From(rest, 3)));
      i := i + 3;
    }
  }

  // ----- The accumulator encoder -----

  /** A value stored in a signed 32-bit variable: two's complement, wrapping. */
  function Wrap32(x: int): int {
    (x + 0x8000_0000) % WORD - 0x8000_0000
  }

  lemma Wrap32KeepsLowBits(x: int)
    ensures Wrap32(x) % 4096 == x % 4096
    ensures -0x8000_0000 <= Wrap32(x) < 0x8000_0000
    ensures exists q :: Wrap32(x) == x - q * 0x1_0000_0000
  {
    var y := x + 0x8000_0000;
    assert y == y / WORD * WORD + y % WORD;
    assert Wrap32(x) == x - y / WORD * 0x1_0000_0000;
    DivModUnique(Wrap32(x), 4096, x / 4096 - y / WORD * 0x10_0000, x % 4096);
  }

  /** (val >> valb) & 0x3F, the shift rounding down as an arithmetic shift does. */
  function Window(val: int, valb: nat): Sextet {
    val / Pow2(valb) % 64
  }

  /** Twelve bits of the accumulator are the last four of the old value and the new byte. */
  lemma LowNibble(val: int, c: Byte, next: int) returns (h: nat)
    requires next % 4096 == (val * 256 + c) % 4096
    ensures h == val % 16 && next == next / 4096 * 4096 + h * 256 + c
  {
    h := val % 16;
    DivModUnique(val * 256 + c, 4096, val / 16, h * 256 + c);
  }

  lemma Window2(val: int, c: Byte, next: int)
    requires next % 4096 == (val * 256 + c) % 4096
    ensures Window(next, 2) == First(c) && next % 4 == c as int % 4
  {
    var q := next / 4096;
    var h := LowNibble(val, c, next);
    DivModUnique(next, 4, q * 1024 + h * 64 + c / 4, c as int % 4);
    DivModUnique(next / 4, 64, q * 16 + h, c / 4);
    SmallPowers();
  }

  lemma Window4(val: int, c: Byte, next: int)
    requires next % 4096 == (val * 256 + c) % 4096
    ensures Window(next, 4) == val % 4 * 16 + c / 16 && next % 16 == c as int % 16
  {
    var q := next / 4096;
    var h := LowNibble(val, c, next);
    DivModUnique(next, 16, q * 256 + h * 16 + c / 16, c as int % 16);
    DivModUnique(next / 16, 64, q * 4 + h / 4, h % 4 * 16 + c / 16);
    DivModUnique(val, 4, val / 16 * 4 + h / 4, h % 4);
    SmallPowers();
  }

  lemma Window6(val: int, c: Byte, next: int)
    requires next % 4096 == (val * 256 + c) % 4096
    ensures Window(next, 6) == val % 16 * 4 + c / 64 && Window(next, 0) == Fourth(c)
  {
    var q := next / 4096;
    var h := LowNibble(val, c, next);
    DivModUnique(next, 64, q * 64 + h * 4 + c / 64, c as int % 64);
    DivModUnique(next / 64, 64, q, h * 4 + c / 64);
    SmallPowers();
  }

  /** The accumulator between bytes: valb counts the pending bits, val ends with them. */
  predicate Pending(val: int, valb: int, tail: seq<Byte>) {
    if |tail| == 0 then valb == -6
    else if |tail| == 1 then valb == -4 && val % 4 == tail[0] as int % 4
    else |tail| == 2 && valb == -2 && val % 16 == tail[1] as int % 16
  }

  lemma ShiftIn(val: int, c: Byte, shifted: int, next: int)
    requires shifted % 4096 == (val * 256) % 4096
    requires next % 4096 == (shifted + c) % 4096
    ensures next % 4096 == (val * 256 + c) % 4096
  {
  }

  lemma PendingStart()
    ensures Pending(0, -6, []) && Partial([]) == "" && Encode([]) == ""
  {
  }

  lemma PendingBits(val: int, valb: int, tail: seq<Byte>)
    requires Pending(val, valb, tail)
    ensures |tail| < 3 && -6 <= valb
    ensures valb > -6 <==> tail != []
  {
  }

  /** The characters already written of a group whose bytes so far are `tail`. */
  function Partial(tail: seq<Byte>): string
    requires |tail| < 3
  {
    if |tail| == 0 then ""
    else if |tail| == 1 then [AlphabetChar(First(tail[0]))]
    else [AlphabetChar(First(tail[0])), AlphabetChar(Second(tail[0], tail[1]))]
  }

  /** The characters that become readable when c joins the pending bits. */
  function Ready(tail: seq<Byte>, c: Byte): string
    requires |tail| < 3
  {
    if |tail| == 0 then [AlphabetChar(First(c))]
    else if |tail| == 1 then [AlphabetChar(Second(tail[0], c))]
    else [AlphabetChar(Third(tail[1], c)), AlphabetChar(Fourth(c))]
  }

  lemma ReadyCompletes(tail: seq<Byte>, c: Byte)
    requires |tail| < 3
    ensures |tail| < 2 ==> Partial(tail) + Ready(tail, c) == Partial(tail + [c])
    ensures |tail| == 2 ==> Partial(tail) + Ready(tail, c) == Encode(tail + [c])
  {
    hide Encode, Partial, Ready;
    if |tail| == 2 {
      ReadyThird(tail[0], tail[1], c);
      assert tail == [tail[0], tail[1]] && tail + [c] == [tail[0], tail[1], c];
    } else if |tail| == 1 {
      ReadySecond(tail[0], c);
      assert tail == [tail[0]] && tail + [c] == [tail[0], c];
    } else {
      ReadyFirst(c);
      assert tail == [] && tail + [c] == [c];
    }
  }

  lemma ReadyFirst(c: Byte)
    ensures Partial([]) + Ready([], c) == Partial([c])
  {
  }

  lemma ReadySecond(a: Byte, c: Byte)
    ensures Partial([a]) + Ready([a], c) == Partial([a, c])
  {
    hide First, Second, AlphabetChar;
    assert [AlphabetChar(First(a))] + [AlphabetChar(Second(a, c))] == Partial([a, c]);
  }

  lemma ReadyThird(a: Byte, b: Byte, c: Byte)
    ensures Partial([a, b]) + Ready([a, b], c) == Encode([a, b, c])
  {
    hide First, Second, Third, Fourth, AlphabetChar, Encode;
    ThreeByteText(a, b, c);
    JoinTwo(AlphabetChar(First(a)), AlphabetChar(Second(a, b)), AlphabetChar(Third(b, c)), AlphabetChar(Fourth(c)));
  }

  lemma JoinTwo(c0: char, c1: char, c2: char, c3: char)
    ensures [c0, c1] + [c2, c3] == [c0, c1, c2, c3]
  {
  }

  lemma ThreeByteText(a: Byte, b: Byte, c: Byte)
    ensures Encode([a, b, c]) == Quartet(First(a), Second(a, b), Third(b, c), Fourth(c), 4)
  {
    GroupText([a, b, c], a, b, c);
  }

  /** The windows the inner loop reads, one every six bits from the top, give the ready characters. */
  lemma WindowsReady(val: int, valb: int, tail: seq<Byte>, c: Byte, next: int)
    requires Pending(val, valb, tail)
    requires next % 4096 == (val * 256 + c) % 4096
    ensures valb + 8 - 6 * |Ready(tail, c)| < 0
    ensures forall k | 0 <= k < |Ready(tail, c)| ::
              0 <= valb + 8 - 6 * k && AlphabetChar(Window(next, valb + 8 - 6 * k)) == Ready(tail, c)[k]
    ensures |tail| < 2 ==> Pending(next, valb + 8 - 6 * |Ready(tail, c)|, tail + [c])
    ensures |tail| == 2 ==> Pending(next, valb + 8 - 6 * |Ready(tail, c)|, [])
  {
    hide Window, AlphabetChar;
    if |tail| == 0 {
      Window2(val, c, next);
    } else if |tail| == 1 {
      Window4(val, c, next);
    } else {
      Window6(val, c, next);
    }
  }

  lemma TextAssoc(s: string, t: string, u: string)
    ensures s + t + u == s + (t + u) && s + "" == s
  {
  }

  lemma RoundCompletes(whole: seq<Byte>, tail: seq<Byte>, c: Byte)
    requires |whole| % 3 == 0 && |tail| < 3
    ensures |tail| < 2 ==> Encode(whole) + Partial(tail) + Ready(tail, c) == Encode(whole) + Partial(tail + [c])
    ensures |tail| == 2 ==>
              Encode(whole) + Partial(tail) + Ready(tail, c) == Encode(whole + (tail + [c])) + Partial([])
  {
    assert Partial([]) == "";
    hide Encode, Ready, Partial;
    ReadyCompletes(tail, c);
    EncodeConcat(whole, tail + [c]);
    TextAssoc(Encode(whole), Partial(tail), Ready(tail, c));
    TextAssoc(Encode(whole + (tail + [c])), "", "");
  }

  /** Text that lacks nothing but padding. */
  ghost predicate LacksPadding(out: string, text: string) {
    && out <= text && |text| % 4 == 0 && |text| < |out| + 4
    && forall j | |out| <= j < |text| :: text[j] == '='
  }

  /** The flush: the pending bits shifted up by a byte, then read through the last window. */
  lemma FlushCompletes(whole: seq<Byte>, val: int, valb: int, tail: seq<Byte>, shifted: int)
    requires |whole| % 3 == 0
    requires Pending(val, valb, tail)
    requires shifted % 4096 == (val * 256) % 4096
    ensures valb > -6 ==>
              LacksPadding(Encode(whole) + Partial(tail) + [AlphabetChar(Window(shifted, valb + 8))], Encode(whole + tail))
    ensures valb <= -6 ==> LacksPadding(Encode(whole) + Partial(tail), Encode(whole + tail))
  {
    hide Encode, Partial, Window, AlphabetChar, LacksPadding, Pending;
    WholeGroups(whole);
    EncodeConcat(whole, tail);
    PendingBits(val, valb, tail);
    if valb > -6 {
      FlushTail(val, valb, tail, shifted);
      PrependWhole(Encode(whole), Partial(tail), [AlphabetChar(Window(shifted, valb + 8))], Encode(tail));
    } else {
      PendingStart();
      NothingLacks();
      PrependWhole(Encode(whole), "", "", "");
    }
  }

  lemma WholeGroups(bs: seq<Byte>)
    ensures |Encode(bs)| % 4 == 0
  {
    hide Encode;
    EncodeLength(bs);
    DivModUnique(|Encode(bs)|, 4, (|bs| + 2) / 3, 0);
  }

  lemma NothingLacks()
    ensures LacksPadding("" + "", "")
  {
  }

  lemma PrependWhole(s: string, t: string, u: string, text: string)
    requires LacksPadding(t + u, text) && |s| % 4 == 0
    ensures LacksPadding(s + t + u, s + text)
    ensures u == "" ==> s + t + u == s + t
  {
    assert s + t + u == s + (t + u);
  }

  lemma FlushTail(val: int, valb: int, tail: seq<Byte>, shifted: int)
    requires Pending(val, valb, tail) && tail != []
    requires shifted % 4096 == (val * 256) % 4096
    ensures valb + 8 >= 0
    ensures LacksPadding(Partial(tail) + [AlphabetChar(Window(shifted, valb + 8))], Encode(tail))
    ensures |Encode(tail)| == 4
  {
    FlushWindow(val, valb, tail, shifted);
    hide AlphabetChar, Window, Encode, LacksPadding, Pending, First, Second, Third, Fourth;
    SingleGroup(tail);
    var c0, c1 := AlphabetChar(First(tail[0])), AlphabetChar(Second(tail[0], ByteAt(tail, 1)));
    if |tail| == 1 {
      LacksTwo(c0, c1);
    } else {
      LacksOne(c0, c1, AlphabetChar(Third(tail[1], 0)));
    }
  }

  /** The window of the flush reads the character that the missing bytes complete. */
  lemma FlushWindow(val: int, valb: int, tail: seq<Byte>, shifted: int)
    requires Pending(val, valb, tail) && tail != []
    requires shifted % 4096 == (val * 256) % 4096
    ensures valb + 8 >= 0 && 1 <= |tail| <= 2
    ensures Window(shifted, valb + 8) == if |tail| == 1 then Second(tail[0], 0) else Third(tail[1], 0)
  {
    hide Window;
    if |tail| == 1 {
      Window4(val, 0, shifted);
    } else {
      Window6(val, 0, shifted);
    }
  }

  lemma LacksTwo(c0: char, c1: char)
    ensures LacksPadding([c0] + [c1], [c0, c1, '=', '='])
  {
  }

  lemma LacksOne(c0: char, c1: char, c2: char)
    ensures LacksPadding([c0, c1] + [c2], [c0, c1, c2, '='])
  {
  }

  /**
   The accumulator loop.  `narrow` is what storing into `val` does to a number.  Nothing is ever
   masked off `val`, yet only its low 12 bits matter: the same proof covers a variable that wraps
   and one that grows without bound.
   */
  method EncodeAccumulating(input: seq<Byte>, narrow: int -> int) returns (out: string)
    requires forall x: int :: narrow(x) % 4096 == x % 4096
    ensures out == Encode(input)
  {
    hide First, Second, Third, Fourth, AlphabetChar, Window, Pending, Ready, Partial, Encode;
    out := "";
    var val, valb := 0, -6;
    PendingStart();
    ghost var whole: seq<Byte>, tail: seq<Byte> := [], [];
    for i := 0 to |input|
      invariant whole + tail == input[..i] && |whole| % 3 == 0 && |tail| < 3
      invariant Pending(val, valb, tail)
      invariant out == Encode(whole) + Partial(tail)
    {
      var c := input[i];
      ghost var before, ready, k := out, Ready(tail, c), 0;
      ghost var next := narrow(narrow(val * 256) + c);
      ShiftIn(val, c, narrow(val * 256), next);
      PendingBits(val, valb, tail);
      WindowsReady(val, valb, tail, c, next);
      val := narrow(narrow(val * 256) + c);
      valb := valb + 8;
      ghost var start := valb;
      while valb >= 0
        invariant 0 <= k <= |ready| && valb == start - 6 * k
        invariant out == before + ready[..k]
        decreases valb + 6
      {
        assert ready[..k + 1] == ready[..k] + [ready[k]];
        out := out + [AlphabetChar(Window(val, valb))];
        valb := valb - 6;
        k := k + 1;
      }
      assert ready[..k] == ready;
      RoundCompletes(whole, tail, c);
      assert input[..i + 1] == whole + (tail + [c]);
      if |tail| == 2 {
        whole, tail := whole + (tail + [c]), [];
      } else {
        tail := tail + [c];
      }
    }
    assert input == whole + tail;
    ghost var text := Encode(input);
    FlushCompletes(whole, val, valb, tail, narrow(val * 256));
    if valb > -6 {
      out := out + [AlphabetChar(Window(narrow(val * 256), valb + 8))];
    }
    while |out| % 4 != 0
      invariant LacksPadding(out, text)
      decreases |text| - |out|
    {
      out := out + "=";
    }
  }

  /** The encoder of the authentication header: its accumulator is a 32-bit int that overflows freely. */
  method EncodeCredentials(input: seq<Byte>) returns (out: string)
    ensures out == Encode(input)
  {
    hide Wrap32, Encode;
    forall x: int ensures Wrap32(x) % 4096 == x % 4096 {
      Wrap32KeepsLowBits(x);
    }
    out := EncodeAccumulating(input, Wrap32);
  }

  /** The same loop with an accumulator that grows without bound. */
  method EncodeUnbounded(input: seq<Byte>) returns (out: string)
    ensures out == Encode(input)
  {
    hide Encode;
    out := EncodeAccumulating(input, x => x);
  }

  // ----- The streaming decoder -----

  /** Bits that wait in the buffer after n sextets. */
  function HeldBits(n: nat): nat {
    if n % 4 == 0 then 0 else 8 - 2 * (n % 4)
  }

  /** The low bits of the buffer are the bits of the last sextet still to be written. */
  predicate Holds(buf: Word, vs: seq<Sextet>) {
    |vs| % 4 != 0 ==> buf % Pow2(HeldBits(|vs|)) == vs[|vs| - 1] % Pow2(HeldBits(|vs|))
  }

  lemma HeldCounts(n: nat)
    ensures HeldBits(n) == 0 || HeldBits(n) == 2 || HeldBits(n) == 4 || HeldBits(n) == 6
    ensures HeldBits(n) == 0 <==> n % 4 == 0
    ensures HeldBits(n + 1) == if HeldBits(n) >= 2 then HeldBits(n) - 2 else 6
  {
  }

  /** One round of the decoder on sextet `val`. */
  lemma DecodeRound(prev: Word, vs: seq<Sextet>, val: Sextet, buf: Word)
    requires Holds(prev, vs)
    requires buf == Or(Shl(prev, 6), val)
    ensures Holds(buf, vs + [val])
    ensures HeldBits(|vs + [val]|) == if HeldBits(|vs|) >= 2 then HeldBits(|vs|) - 2 else 6
    ensures HeldBits(|vs|) >= 2 ==>
              DecodeSextets(vs + [val]) == DecodeSextets(vs) + [And(Shr(buf, HeldBits(|vs|) - 2), 0xFF)]
    ensures HeldBits(|vs|) < 2 ==> HeldBits(|vs|) == 0 && DecodeSextets(vs + [val]) == DecodeSextets(vs)
  {
    hide Or, And, Shl, Shr, Pow2, Join, DecodeSextets;
    HeldCounts(|vs|);
    hide HeldBits;
    ShiftSextet(prev, val);
    NextHeld(buf, val, prev, |vs|);
    DecodeAppend(vs, val);
    if |vs| % 4 != 0 {
      EmitByte(prev, buf, vs[|vs| - 1], val, HeldBits(|vs|));
    }
  }

  method DecodeText(encoded: string) returns (out: seq<Byte>)
    ensures out == Decode(encoded)
  {
    hide DecodeSextets, Or, And, Shl, Shr, Holds, HeldBits, DecodeChar, InAlphabet;
    DecodeStart();
    out := [];
    var buf: Word := 0;
    var bits := 0;
    ghost var vs: seq<Sextet> := [];
    for i := 0 to |encoded|
      invariant vs == Sextets(encoded[..i])
      invariant out == DecodeSextets(vs)
      invariant bits == HeldBits(|vs|)
      invariant Holds(buf, vs)
    {
      var c := encoded[i];
      assert encoded[..i + 1] == encoded[..i] + [c];
      SextetsConcat(encoded[..i], [c]);
      assert Sextets([c]) == OneSextet(c);
      SextetOf(c);
      if c == '=' || c == '\n' || c == '\r' { continue; }
      var val := DecodeChar(c);
      if val < 0 { continue; }
      ShiftSextet(buf, val);
      DecodeRound(buf, vs, val, Or(Shl(buf, 6), val));
      buf := Or(Shl(buf, 6), val);
      bits := bits + 6;
      if bits >= 8 {
        bits := bits - 8;
        out := out + [And(Shr(buf, bits), 0xFF)];
      }
      vs := vs + [val];
    }
    assert encoded[..|encoded|] == encoded;
  }

  lemma DecodeStart()
    ensures Holds(0, []) && HeldBits(0) == 0 && DecodeSextets([]) == []
  {
  }

  lemma SextetOf(c: char)
    ensures c == '=' || c == '\n' || c == '\r' || DecodeChar(c) < 0 ==> OneSextet(c) == []
    ensures DecodeChar(c) >= 0 ==> OneSextet(c) == [DecodeChar(c)]
  {
  }

  /** (buf << 6) | val on 32 bits: the top six bits fall off, the rest moves up. */
  lemma ShiftSextet(buf: Word, val: Sextet)
    ensures Or(Shl(buf, 6), val) == buf % 0x400_0000 * 64 + val < WORD
  {
    SmallPowers();
    var top, low := buf / 0x400_0000, buf % 0x400_0000;
    assert buf as int * 64 == top * WORD + low * 64;
    DivModUnique(buf as int * 64, WORD, top, low * 64);
    OrDisjoint(low, val, 6);
  }

  lemma NextHeld(buf: Word, val: Sextet, prev: Word, n: nat)
    requires buf == prev % 0x400_0000 * 64 + val
    ensures HeldBits(n + 1) == (HeldBits(n) + 6) % 8
    ensures buf % Pow2(HeldBits(n + 1)) == val % Pow2(HeldBits(n + 1))
  {
    SmallPowers();
    assert Pow2(0) == 1;
    var q := prev % 0x400_0000;
    DivModUnique(buf, 64, q, val);
    DivModUnique(buf, 16, q * 4 + val / 16, val as int % 16);
    DivModUnique(buf, 4, q * 16 + val / 4, val as int % 4);
    hide Pow2;
  }

  lemma EmitByte(prev: Word, buf: Word, last: Sextet, val: Sextet, held: nat)
    requires held == 2 || held == 4 || held == 6
    requires buf == prev % 0x400_0000 * 64 + val
    requires prev % Pow2(held) == last % Pow2(held)
    ensures And(Shr(buf, held - 2), 0xFF) == Join(last, val, 8 - held)
  {
    hide Pow2, And, Join;
    var top := prev % 0x400_0000;
    SmallPowers();
    LowByte(buf, held - 2);
    LowBits(prev);
    if held == 6 {
      SplitAt64(top, last, val);
    } else if held == 4 {
      SplitAt16(top, last, val);
    } else {
      SplitAt4(top, last, val);
    }
  }

  lemma LowByte(x: nat, k: nat)
    ensures And(Shr(x, k), 0xFF) == x / Pow2(k) % 256
    ensures k == 0 ==> Pow2(k) == 1
  {
    hide And;
    SmallPowers();
    AndMask(Shr(x, k), 8);
  }

  lemma LowBits(x: nat)
    ensures x % 0x400_0000 % 64 == x % 64
    ensures x % 0x400_0000 % 16 == x % 16
    ensures x % 0x400_0000 % 4 == x % 4
  {
    var q, r := x / 0x400_0000, x % 0x400_0000;
    DivModUnique(x, 64, q * 0x10_0000 + r / 64, r % 64);
    DivModUnique(x, 16, q * 0x40_0000 + r / 16, r % 16);
    DivModUnique(x, 4, q * 0x100_0000 + r / 4, r % 4);
  }

  lemma SplitAt64(top: nat, last: Sextet, val: Sextet)
    requires top % 64 == last
    ensures (top * 64 + val) / 16 % 256 == Join(last, val, 2)
  {
    DivModUnique(top * 64 + val, 16, top * 4 + val / 16, val as int % 16);
    DivModUnique(top * 4 + val / 16, 256, top / 64, last as int * 4 + val / 16);
  }

  lemma SplitAt16(top: nat, last: Sextet, val: Sextet)
    requires top % 16 == last % 16
    ensures (top * 64 + val) / 4 % 256 == Join(last, val, 4)
  {
    DivModUnique(top * 64 + val, 4, top * 16 + val / 4, val as int % 4);
    DivModUnique(top * 16 + val / 4, 256, top / 16, last as int % 16 * 16 + val / 4);
  }

  lemma SplitAt4(top: nat, last: Sextet, val: Sextet)
    requires top % 4 == last % 4
    ensures (top * 64 + val) % 256 == Join(last, val, 6)
  {
    DivModUnique(top * 64 + val, 256, top / 4, last as int % 4 * 64 + val);
  }
}
