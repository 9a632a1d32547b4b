/**
 The incremental splitter behind both server-sent-event streams of the Python SDK: chunks are
 appended to a buffer, and the buffer is cut at blank lines.  Blocks and Rest say what cutting
 the whole text at once would give.
 */
module SseSplitter {
  import opened Wrappers

  /** A blank line starts at j: two line feeds in a row. */
  predicate BlankAt(s: string, j: int) {
    0 <= j && j + 1 < |s| && s[j] == '\n' && s[j + 1] == '\n'
  }

  predicate HasBlank(s: string) {
    exists j | 0 <= j < |s| :: BlankAt(s, j)
  }

  /** The first blank line, or -1. */
  function FindBlank(s: string): (r: int)
    ensures r != -1 ==> BlankAt(s, r) && forall j | 0 <= j < r :: !BlankAt(s, j)
    ensures r == -1 ==> !HasBlank(s)
  {
    if |s| < 2 then -1
    else if BlankAt(s, 0) then 0
    else
      var r := FindBlank(s[1..]);
      assert forall j | 1 <= j < |s| :: BlankAt(s, j) == BlankAt(s[1..], j - 1);
      if r == -1 then -1 else r + 1
  }

  function Blocks(text: string): seq<string>
    decreases |text|
  {
    var i := FindBlank(text);
    if i == -1 then [] else [text[..i]] + Blocks(text[i + 2..])
  }

  function Rest(text: string): string
    decreases |text|
  {
    var i := FindBlank(text);
    if i == -1 then text else Rest(text[i + 2..])
  }

  function Concat(chunks: seq<string>): string {
    if chunks == [] then "" else Concat(chunks[..|chunks| - 1]) + chunks[|chunks| - 1]
  }

  /** Joining chunks is concatenation. */
  lemma ConcatMeaning(chunks: seq<string>, chunk: string)
    ensures Concat([]) == "" && Concat(chunks + [chunk]) == Concat(chunks) + chunk
  {
    assert (chunks + [chunk])[..|chunks|] == chunks;
  }

  /** An event, a keep-alive block without text, and the beginning of another event. */
  lemma SplitWitness()
    ensures var text := "data: a\n\n\n\ndata: b\n";
            Blocks(text) == ["data: a", ""] && Rest(text) == "data: b\n"
  {
    var text, rest := "data: a\n\n\n\ndata: b\n", "data: b\n";
    NoBlankIn("data: a\n");
    NoBlankIn("\n");
    NoBlankIn(rest);
    assert "data: a" + "\n" == "data: a\n" && "" + "\n" == "\n";
    var blocks := ["data: a", ""];
    assert blocks[1..] == [""] && blocks[1..][1..] == [];
    assert Rejoin([""]) == "" + "\n\n" + Rejoin([]);
    assert Rejoin(blocks) == "data: a" + "\n\n" + Rejoin([""]);
    assert Rejoin(blocks) + rest == text;
    CutUnique(blocks, rest);
  }

  lemma NoBlankIn(s: string)
    requires forall j | 0 <= j < |s| - 1 :: s[j] != '\n'
    ensures !HasBlank(s)
  {
  }

  // ----- The text can be rebuilt, and only one way of cutting it is possible -----

  function Rejoin(blocks: seq<string>): string {
    if blocks == [] then "" else blocks[0] + "\n\n" + Rejoin(blocks[1..])
  }

  lemma {:induction false} RejoinRebuilds(text: string)
    ensures Rejoin(Blocks(text)) + Rest(text) == text
    ensures !HasBlank(Rest(text))
    ensures forall b | b in Blocks(text) :: !HasBlank(b + "\n")
    decreases |text|
  {
    var i := FindBlank(text);
    if i != -1 {
      var head, tail := text[..i], text[i + 2..];
      RejoinRebuilds(tail);
      FirstBlock(text);
      RejoinStep(head, Blocks(tail), Rest(tail));
      hide HasBlank, Rejoin, Blocks, Rest;
    }
  }

  lemma FirstBlock(text: string)
    requires FindBlank(text) != -1
    ensures var i := FindBlank(text);
            && text == text[..i] + "\n\n" + text[i + 2..]
            && Blocks(text) == [text[..i]] + Blocks(text[i + 2..])
            && Rest(text) == Rest(text[i + 2..])
            && !HasBlank(text[..i] + "\n")
  {
    HeadClean(text);
  }

  lemma HeadClean(text: string)
    requires FindBlank(text) != -1
    ensures !HasBlank(text[..FindBlank(text)] + "\n")
  {
    var i := FindBlank(text);
    var head := text[..i] + "\n";
    forall j | 0 <= j < |head|
      ensures !BlankAt(head, j)
    {
      assert BlankAt(head, j) ==> j < i && BlankAt(text, j);
    }
  }

  lemma RejoinStep(b: string, blocks: seq<string>, rest: string)
    ensures Rejoin([b] + blocks) + rest == b + "\n\n" + (Rejoin(blocks) + rest)
  {
    assert ([b] + blocks)[1..] == blocks;
  }

  /** A block that neither holds nor ends at a blank line is the one the splitter cuts off. */
  lemma FirstCut(b: string, rest: string)
    requires !HasBlank(b + "\n")
    ensures FindBlank(b + "\n\n" + rest) == |b|
  {
    var text := b + "\n\n" + rest;
    assert BlankAt(text, |b|);
    assert forall j | 0 <= j < |b| :: BlankAt(text, j) ==> BlankAt(b + "\n", j);
  }

  lemma CutOff(b: string, rest: string)
    requires !HasBlank(b + "\n")
    ensures Blocks(b + "\n\n" + rest) == [b] + Blocks(rest)
    ensures Rest(b + "\n\n" + rest) == Rest(rest)
  {
    hide FindBlank;
    FirstCut(b, rest);
    assert (b + "\n\n" + rest)[|b| + 2..] == rest;
    assert (b + "\n\n" + rest)[..|b|] == b;
  }

  lemma {:induction false} CutUnique(blocks: seq<string>, rest: string)
    requires !HasBlank(rest)
    requires forall b | b in blocks :: !HasBlank(b + "\n")
    ensures Blocks(Rejoin(blocks) + rest) == blocks
    ensures Rest(Rejoin(blocks) + rest) == rest
  {
    if blocks == [] {
      assert Rejoin(blocks) + rest == rest;
      assert FindBlank(rest) == -1;
    } else {
      hide Blocks, Rest, HasBlank, FindBlank, Rejoin;
      CutUnique(blocks[1..], rest);
      CutOff(blocks[0], Rejoin(blocks[1..]) + rest);
      RejoinStep(blocks[0], blocks[1..], rest);
      assert blocks == [blocks[0]] + blocks[1..];
    }
  }

  // ----- Chunking does not matter -----

  lemma {:induction false} CutAppend(text: string, more: string)
    ensures Blocks(text + more) == Blocks(text) + Blocks(Rest(text) + more)
    ensures Rest(text + more) == Rest(Rest(text) + more)
    decreases |text|
  {
    var i := FindBlank(text);
    if i != -1 {
      FindInLonger(text, more);
      assert (text + more)[..i] == text[..i];
      assert (text + more)[i + 2..] == text[i + 2..] + more;
      CutAppend(text[i + 2..], more);
    }
  }

  lemma FindInLonger(text: string, more: string)
    requires FindBlank(text) != -1
    ensures FindBlank(text + more) == FindBlank(text)
  {
    var i := FindBlank(text);
    assert BlankAt(text + more, i);
    assert forall j | 0 <= j < i :: BlankAt(text + more, j) ==> BlankAt(text, j);
  }

  /** What has been emitted is never taken back: more text only adds blocks. */
  lemma EmittedGrows(text: string, more: string)
    ensures Blocks(text) <= Blocks(text + more)
  {
    CutAppend(text, more);
  }

  /** Two ways of cutting one stream into chunks end in the same blocks and the same buffer. */
  lemma ChunkingIrrelevant(chunks: seq<string>, others: seq<string>)
    requires Concat(chunks) == Concat(others)
    ensures FeedAll("", chunks) == FeedAll("", others)
  {
    FeedAllIsOneCut("", chunks);
    FeedAllIsOneCut("", others);
    assert "" + Concat(chunks) == Concat(chunks);
  }

  /** Feeding chunks one by one, starting from a buffer: the blocks cut off and the buffer left. */
  function FeedAll(buffer: string, chunks: seq<string>): (seq<string>, string) {
    if chunks == [] then ([], buffer)
    else
      var (blocks, rest) := FeedAll(buffer, chunks[..|chunks| - 1]);
      var text := rest + chunks[|chunks| - 1];
      (blocks + Blocks(text), Rest(text))
  }

  lemma FeedOne(buffer: string, chunks: seq<string>)
    requires chunks != []
    ensures var init, last := chunks[..|chunks| - 1], chunks[|chunks| - 1];
            var fed := FeedAll(buffer, init);
            && FeedAll(buffer, chunks) == (fed.0 + Blocks(fed.1 + last), Rest(fed.1 + last))
            && buffer + Concat(chunks) == buffer + Concat(init) + last
  {
    hide Blocks, Rest;
  }

  lemma {:induction false} FeedAllIsOneCut(buffer: string, chunks: seq<string>)
    requires !HasBlank(buffer)
    ensures FeedAll(buffer, chunks) == (Blocks(buffer + Concat(chunks)), Rest(buffer + Concat(chunks)))
  {
    if chunks == [] {
      assert buffer + "" == buffer;
      assert FindBlank(buffer) == -1;
    } else {
      hide Blocks, Rest, HasBlank, FindBlank;
      var init, last := chunks[..|chunks| - 1], chunks[|chunks| - 1];
      FeedAllIsOneCut(buffer, init);
      FeedOne(buffer, chunks);
      hide FeedAll, Concat;
      CutAppend(buffer + Concat(init), last);
    }
  }

  // ----- The loop of the source -----

  /** The parsed blocks, those the parser gives nothing for left out. */
  function Events<E>(blocks: seq<string>, parse: string -> Option<E>): seq<E> {
    if blocks == [] then []
    else
      var last := parse(blocks[|blocks| - 1]);
      Events(blocks[..|blocks| - 1], parse) + (if last.Some? then [last.value] else [])
  }

  lemma EventsNothing<E>(parse: string -> Option<E>)
    ensures Events([], parse) == []
  {
  }

  lemma EventsAppend<E>(blocks: seq<string>, block: string, parse: string -> Option<E>)
    ensures Events(blocks + [block], parse)
         == Events(blocks, parse) + (if parse(block).Some? then [parse(block).value] else [])
  {
    assert (blocks + [block])[..|blocks|] == blocks;
  }

  lemma CutStep<E>(emitted: seq<string>, buffer: string, parse: string -> Option<E>)
    requires FindBlank(buffer) != -1
    ensures var i := FindBlank(buffer);
            && emitted + Blocks(buffer) == emitted + [buffer[..i]] + Blocks(buffer[i + 2..])
            && Rest(buffer) == Rest(buffer[i + 2..])
            && Events(emitted + [buffer[..i]], parse) == Events(emitted, parse)
                 + (if parse(buffer[..i]).Some? then [parse(buffer[..i]).value] else [])
  {
    hide Events, FindBlank;
    EventsAppend(emitted, buffer[..FindBlank(buffer)], parse);
  }

  lemma ChunkStep(chunks: seq<string>, n: nat)
    requires n < |chunks|
    ensures var before, after := Concat(chunks[..n]), Concat(chunks[..n + 1]);
            && Blocks(after) == Blocks(before) + Blocks(Rest(before) + chunks[n])
            && Rest(after) == Rest(Rest(before) + chunks[n])
  {
    assert chunks[..n + 1][..n] == chunks[..n];
    CutAppend(Concat(chunks[..n]), chunks[n]);
  }

  lemma NoText()
    ensures Blocks("") == [] && Rest("") == ""
  {
  }

  lemma NothingLeft(buffer: string)
    requires FindBlank(buffer) == -1
    ensures Blocks(buffer) == [] && Rest(buffer) == buffer
  {
  }

  method Stream<E>(chunks: seq<string>, parse: string -> Option<E>) returns (events: seq<E>, buffer: string)
    ensures events == Events(Blocks(Concat(chunks)), parse)
    ensures buffer == Rest(Concat(chunks))
  {
    events, buffer := [], "";
    NoText();
    for n := 0 to |chunks|
      invariant events == Events(Blocks(Concat(chunks[..n])), parse)
      invariant buffer == Rest(Concat(chunks[..n]))
    {
      hide Blocks, Rest, Concat, Events, FindBlank;
      ghost var text, emitted := Concat(chunks[..n + 1]), Blocks(Concat(chunks[..n]));
      ChunkStep(chunks, n);
      buffer := buffer + chunks[n];
      while FindBlank(buffer) != -1
        invariant events == Events(emitted, parse)
        invariant emitted + Blocks(buffer) == Blocks(text)
        invariant Rest(buffer) == Rest(text)
        decreases |buffer|
      {
        CutStep(emitted, buffer, parse);
        var i := FindBlank(buffer);
        var block := buffer[..i];
        buffer := buffer[i + 2..];
        var event := parse(block);
        if event.Some? {
          events := events + [event.value];
        }
        emitted := emitted + [block];
      }
      NothingLeft(buffer);
      assert emitted == Blocks(text);
    }
    assert chunks[..|chunks|] == chunks;
  }
}
