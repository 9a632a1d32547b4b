/**
 The OData query string of a log request, as the Python and the C++ builder write it, and the
 reader that shows no information is lost.
 */
module ODataQuery {
  import opened Wrappers

  /** Both builders take the same five optional fields. */
  datatype Query = Query(
    top: Option<int>,
    skip: Option<int>,
    severity: Option<string>,
    messageId: Option<string>,
    odataFilter: Option<string>)

  // ----- Decimal numbers -----

  function DigitChar(d: nat): char
    requires d < 10
  {
    ('0' as int + d) as char
  }

  function NatText(n: nat): (s: string)
    ensures s != "" && AllDigits(s)
  {
    if n < 10 then [DigitChar(n)] else NatText(n / 10) + [DigitChar(n % 10)]
  }

  function IntText(n: int): string {
    if n < 0 then "-" + NatText(-n) else NatText(n)
  }

  predicate AllDigits(s: string) {
    forall i | 0 <= i < |s| :: '0' <= s[i] <= '9'
  }

  function ReadNat(s: string): nat
    requires AllDigits(s)
  {
    if s == "" then 0 else 10 * ReadNat(s[..|s| - 1]) + (s[|s| - 1] as int - '0' as int)
  }

  predicate IsNumber(s: string) {
    AllDigits(s) || (s != "" && s[0] == '-' && AllDigits(s[1..]))
  }

  function ReadInt(s: string): int
    requires IsNumber(s)
  {
    if s != "" && s[0] == '-' then 0 - ReadNat(s[1..]) else ReadNat(s)
  }

  lemma {:induction false} ReadNatText(n: nat)
    ensures ReadNat(NatText(n)) == n
  {
    if n >= 10 {
      ReadNatText(n / 10);
      assert NatText(n)[..|NatText(n)| - 1] == NatText(n / 10);
    }
  }

  lemma ReadIntText(n: int)
    ensures IsNumber(IntText(n)) && ReadInt(IntText(n)) == n
    ensures '&' !in IntText(n)
  {
    var digits := NatText(if n < 0 then -n else n);
    ReadNatText(if n < 0 then -n else n);
    assert digits[0] != '-' && '&' !in digits;
    assert ("-" + digits)[1..] == digits;
  }

  // ----- The effective filter -----

  function Quoted(field: string, value: string): string {
    field + " eq '" + value + "'"
  }

  predicate NonEmpty(s: Option<string>) {
    s.Some? && s.value != ""
  }

  /** Python goes by truth value: an empty text counts as absent. */
  function PythonFilter(q: Query): Option<string> {
    if NonEmpty(q.odataFilter) then q.odataFilter
    else if NonEmpty(q.severity) then Some(Quoted("Severity", q.severity.value))
    else if NonEmpty(q.messageId) then Some(Quoted("MessageId", q.messageId.value))
    else None
  }

  /** C++ goes by presence. */
  function CppFilter(q: Query): Option<string> {
    if q.odataFilter.Some? then q.odataFilter
    else if q.severity.Some? then Some(Quoted("Severity", q.severity.value))
    else if q.messageId.Some? then Some(Quoted("MessageId", q.messageId.value))
    else None
  }

  // ----- The text -----

  /** The parts in the order the BMC requires. */
  function Parts(skip: Option<int>, top: Option<int>, filter: Option<string>): seq<string> {
    (if skip.Some? then ["$skip=" + IntText(skip.value)] else [])
    + (if top.Some? then ["$top=" + IntText(top.value)] else [])
    + (if filter.Some? then ["$filter=" + filter.value] else [])
  }

  function JoinAmp(parts: seq<string>): string {
    if parts == [] then ""
    else if |parts| == 1 then parts[0]
    else JoinAmp(parts[..|parts| - 1]) + "&" + parts[|parts| - 1]
  }

  function QueryText(skip: Option<int>, top: Option<int>, filter: Option<string>): string {
    JoinAmp(Parts(skip, top, filter))
  }

  method BuildFilterParams(q: Query) returns (text: string)
    ensures text == QueryText(q.skip, q.top, PythonFilter(q))
  {
    var parts: seq<string> := [];
    if q.skip.Some? { parts := parts + ["$skip=" + IntText(q.skip.value)]; }
    if q.top.Some? { parts := parts + ["$top=" + IntText(q.top.value)]; }
    if NonEmpty(q.odataFilter) {
      parts := parts + ["$filter=" + q.odataFilter.value];
    } else if NonEmpty(q.severity) {
      parts := parts + ["$filter=" + Quoted("Severity", q.severity.value)];
    } else if NonEmpty(q.messageId) {
      parts := parts + ["$filter=" + Quoted("MessageId", q.messageId.value)];
    }
    assert parts == Parts(q.skip, q.top, PythonFilter(q));
    return JoinAmp(parts);
  }

  lemma JoinAppend(parts: seq<string>, part: string)
    requires "" !in parts
    ensures JoinAmp(parts + [part]) == if JoinAmp(parts) == "" then part else JoinAmp(parts) + "&" + part
  {
    assert (parts + [part])[..|parts|] == parts;
    if |parts| == 1 {
      assert parts[0] in parts;
    }
  }

  /** The C++ append lambda: an ampersand before every part but the first. */
  method Append(out: string, part: string, ghost parts: seq<string>) returns (r: string)
    requires out == JoinAmp(parts) && "" !in parts && part != ""
    ensures r == JoinAmp(parts + [part]) && "" !in parts + [part]
  {
    JoinAppend(parts, part);
    r := out;
    if r != "" { r := r + "&"; }
    r := r + part;
  }

  method BuildQueryString(q: Query) returns (out: string)
    ensures out == QueryText(q.skip, q.top, CppFilter(q))
  {
    assert JoinAmp([]) == "";
    hide JoinAmp, IntText, Quoted;
    out := "";
    ghost var parts: seq<string> := [];
    if q.skip.Some? {
      out := Append(out, "$skip=" + IntText(q.skip.value), parts);
      parts := parts + ["$skip=" + IntText(q.skip.value)];
    }
    if q.top.Some? {
      out := Append(out, "$top=" + IntText(q.top.value), parts);
      parts := parts + ["$top=" + IntText(q.top.value)];
    }
    assert parts == Parts(q.skip, q.top, None);
    if q.odataFilter.Some? {
      out := Append(out, "$filter=" + q.odataFilter.value, parts);
      parts := parts + ["$filter=" + q.odataFilter.value];
    } else if q.severity.Some? {
      out := Append(out, "$filter=" + Quoted("Severity", q.severity.value), parts);
      parts := parts + ["$filter=" + Quoted("Severity", q.severity.value)];
    } else if q.messageId.Some? {
      out := Append(out, "$filter=" + Quoted("MessageId", q.messageId.value), parts);
      parts := parts + ["$filter=" + Quoted("MessageId", q.messageId.value)];
    }
    assert parts == Parts(q.skip, q.top, CppFilter(q));
  }

  // ----- Reading it back -----

  /** The text before the first ampersand. */
  function Head(s: string): string {
    if s == "" || s[0] == '&' then "" else [s[0]] + Head(s[1..])
  }

  /** What follows it. */
  function AfterHead(s: string): string {
    if s == "" then "" else if s[0] == '&' then s[1..] else AfterHead(s[1..])
  }

  lemma {:induction false} HeadSplits(h: string, rest: string)
    requires '&' !in h
    ensures Head(h + "&" + rest) == h && AfterHead(h + "&" + rest) == rest
    ensures Head(h) == h && AfterHead(h) == ""
  {
    if h == "" {
      assert h + "&" + rest == "&" + rest;
    } else {
      assert (h + "&" + rest)[1..] == h[1..] + "&" + rest;
      HeadSplits(h[1..], rest);
    }
  }

  /** Take a numeric part off the front if it carries the name. */
  function TakeNumber(name: string, s: string): (Option<int>, string) {
    if name <= Head(s) && IsNumber(Head(s)[|name|..])
    then (Some(ReadInt(Head(s)[|name|..])), AfterHead(s))
    else (None, s)
  }

  /** A left-to-right reader: an offset, a limit, and everything else is the filter. */
  function Read(s: string): (Option<int>, Option<int>, Option<string>) {
    var (skip, s1) := TakeNumber("$skip=", s);
    var (top, s2) := TakeNumber("$top=", s1);
    (skip, top, if "$filter=" <= s2 then Some(s2[|"$filter="|..]) else None)
  }

  /** The text that follows a numeric part: nothing, or an ampersand and the rest. */
  function Tail(rest: string): string {
    if rest == "" then "" else "&" + rest
  }

  lemma TakeBack(name: string, n: int, rest: string)
    requires '&' !in name
    ensures TakeNumber(name, name + IntText(n) + Tail(rest)) == (Some(n), rest)
  {
    var h := name + IntText(n);
    ReadIntText(n);
    hide IntText, ReadInt, IsNumber;
    HeadSplits(h, rest);
    hide Head, AfterHead;
    assert h[|name|..] == IntText(n);
    if rest == "" {
      assert h + "" == h;
    } else {
      assert h + ("&" + rest) == h + "&" + rest;
    }
  }

  function FilterText(filter: Option<string>): string {
    if filter.Some? then "$filter=" + filter.value else ""
  }

  function TopText(top: Option<int>, filter: Option<string>): string {
    if top.Some? then "$top=" + IntText(top.value) + Tail(FilterText(filter)) else FilterText(filter)
  }

  function SkipText(skip: Option<int>, top: Option<int>, filter: Option<string>): string {
    if skip.Some? then "$skip=" + IntText(skip.value) + Tail(TopText(top, filter)) else TopText(top, filter)
  }

  lemma TextNested(skip: Option<int>, top: Option<int>, filter: Option<string>)
    ensures QueryText(skip, top, filter) == SkipText(skip, top, filter)
  {
    hide IntText;
    if skip.Some? && top.Some? && filter.Some? {
      JoinThree("$skip=" + IntText(skip.value), "$top=" + IntText(top.value), "$filter=" + filter.value);
      assert Parts(skip, top, filter)
          == ["$skip=" + IntText(skip.value), "$top=" + IntText(top.value), "$filter=" + filter.value];
    } else if skip.Some? && top.Some? {
      JoinTwo("$skip=" + IntText(skip.value), "$top=" + IntText(top.value));
      assert Parts(skip, top, filter) == ["$skip=" + IntText(skip.value), "$top=" + IntText(top.value)];
    } else if skip.Some? && filter.Some? {
      JoinTwo("$skip=" + IntText(skip.value), "$filter=" + filter.value);
      assert Parts(skip, top, filter) == ["$skip=" + IntText(skip.value), "$filter=" + filter.value];
    } else if top.Some? && filter.Some? {
      JoinTwo("$top=" + IntText(top.value), "$filter=" + filter.value);
      assert Parts(skip, top, filter) == ["$top=" + IntText(top.value), "$filter=" + filter.value];
    }
  }

  lemma JoinTwo(a: string, b: string)
    ensures JoinAmp([a, b]) == a + ("&" + b)
  {
    assert [a, b][..1] == [a];
  }

  lemma JoinThree(a: string, b: string, c: string)
    ensures JoinAmp([a, b, c]) == a + ("&" + (b + ("&" + c)))
  {
    assert [a, b, c][..2] == [a, b];
    JoinTwo(a, b);
  }

  /** A part under another name, or no part at all, is left alone. */
  lemma LeaveAlone(name: string, s: string)
    requires name != "" && '&' !in name
    requires s != "" ==> exists k :: 0 <= k < |name| && k < |s| && s[k] != name[k] && (forall j | 0 <= j <= k :: s[j] != '&')
    ensures TakeNumber(name, s) == (None, s)
  {
    if s != "" {
      var k :| 0 <= k < |name| && k < |s| && s[k] != name[k] && (forall j | 0 <= j <= k :: s[j] != '&');
      HeadLong(s, k);
    }
  }

  lemma {:induction false} HeadLong(s: string, k: nat)
    requires k < |s| && forall j | 0 <= j <= k :: s[j] != '&'
    ensures k < |Head(s)| && Head(s)[k] == s[k]
  {
    if k > 0 {
      HeadLong(s[1..], k - 1);
    }
  }

  lemma TopBack(top: Option<int>, filter: Option<string>)
    ensures TakeNumber("$top=", TopText(top, filter)) == (top, FilterText(filter))
  {
    if top.Some? {
      hide TakeNumber;
      TakeBack("$top=", top.value, FilterText(filter));
    } else {
      var t := FilterText(filter);
      if t != "" {
        assert t[1] != "$top="[1];
      }
      LeaveAlone("$top=", t);
    }
  }

  lemma SkipBack(skip: Option<int>, top: Option<int>, filter: Option<string>)
    ensures TakeNumber("$skip=", SkipText(skip, top, filter)) == (skip, TopText(top, filter))
  {
    if skip.Some? {
      hide TakeNumber;
      TakeBack("$skip=", skip.value, TopText(top, filter));
    } else {
      var t := TopText(top, filter);
      if t != "" {
        assert t[1] != "$skip="[1];
      }
      LeaveAlone("$skip=", t);
    }
  }

  /** Reading undoes building, whatever the filter holds: the ampersands in it are the last thing in the text. */
  lemma ReadBack(skip: Option<int>, top: Option<int>, filter: Option<string>)
    ensures Read(QueryText(skip, top, filter)) == (skip, top, filter)
  {
    TextNested(skip, top, filter);
    SkipBack(skip, top, filter);
    TopBack(top, filter);
    hide TakeNumber, SkipText, TopText, QueryText;
    if filter.Some? {
      assert FilterText(filter)[|"$filter="|..] == filter.value;
    }
  }

  /** So the text determines offset, limit and effective filter. */
  lemma TextDetermines(skip: Option<int>, top: Option<int>, filter: Option<string>,
                       skip': Option<int>, top': Option<int>, filter': Option<string>)
    requires QueryText(skip, top, filter) == QueryText(skip', top', filter')
    ensures skip == skip' && top == top' && filter == filter'
  {
    ReadBack(skip, top, filter);
    ReadBack(skip', top', filter');
  }

  /** The field the C++ builder takes its filter from. */
  function FirstPresent(q: Query): Option<string> {
    if q.odataFilter.Some? then q.odataFilter else if q.severity.Some? then q.severity else q.messageId
  }

  /** The two builders write the same text exactly when the first filter field present is not empty. */
  lemma BuildersAgree(q: Query)
    ensures QueryText(q.skip, q.top, PythonFilter(q)) == QueryText(q.skip, q.top, CppFilter(q))
       <==> FirstPresent(q) != Some("")
  {
    if QueryText(q.skip, q.top, PythonFilter(q)) == QueryText(q.skip, q.top, CppFilter(q)) {
      TextDetermines(q.skip, q.top, PythonFilter(q), q.skip, q.top, CppFilter(q));
      if FirstPresent(q) == Some("") {
        EmptyFieldDiffers(q);
      }
    }
  }

  /** An empty filter before a severity: Python writes the severity, C++ an empty filter. */
  lemma EmptyFilterWitness()
    ensures var q := Query(None, None, Some("Critical"), None, Some(""));
            && QueryText(q.skip, q.top, PythonFilter(q)) == "$filter=Severity eq 'Critical'"
            && QueryText(q.skip, q.top, CppFilter(q)) == "$filter="
  {
    assert Quoted("Severity", "Critical") == "Severity eq 'Critical'";
    assert "$filter=" + "" == "$filter=";
  }

  /**
   The text for an offset, a limit and filter fields that are not empty: the raw filter counts
   before the severity, this before the message id.
   */
  lemma FullText(q: Query)
    requires q.skip.Some? && q.top.Some?
    requires q.odataFilter != Some("") && q.severity != Some("") && q.messageId != Some("")
    ensures var front := "$skip=" + IntText(q.skip.value) + "&$top=" + IntText(q.top.value) + "&$filter=";
            var py, cpp := QueryText(q.skip, q.top, PythonFilter(q)), QueryText(q.skip, q.top, CppFilter(q));
            if q.odataFilter.Some? then py == cpp == front + q.odataFilter.value
            else if q.severity.Some? then py == cpp == front + ("Severity eq '" + q.severity.value + "'")
            else if q.messageId.Some? then py == cpp == front + ("MessageId eq '" + q.messageId.value + "'")
            else py == cpp == "$skip=" + IntText(q.skip.value) + "&$top=" + IntText(q.top.value)
  {
    var skip, top := q.skip.value, q.top.value;
    if q.odataFilter.Some? {
      FrontText(skip, top, q.odataFilter.value);
    } else if q.severity.Some? {
      FrontText(skip, top, Quoted("Severity", q.severity.value));
    } else if q.messageId.Some? {
      FrontText(skip, top, Quoted("MessageId", q.messageId.value));
    } else {
      NoFilterText(skip, top);
    }
    hide QueryText, IntText;
  }

  lemma Assoc(a: string, b: string, c: string)
    ensures a + b + c == a + (b + c)
  {
  }

  /** Parts joined by a separator, written without brackets. */
  lemma Woven(s: string, amp: string, p: string, y: string, q: string, f: string)
    ensures s + (amp + (p + y + (amp + (q + f)))) == s + (amp + p) + y + (amp + q) + f
    ensures s + (amp + (p + y)) == s + (amp + p) + y
  {
    var v, w := amp + q, amp + p;
    Assoc(amp, q, f);
    Assoc(p, y, v + f);
    Assoc(amp, p, y + (v + f));
    Assoc(s, w, y + (v + f));
    Assoc(s + w, y, v + f);
    Assoc(s + w + y, v, f);
    Assoc(amp, p, y);
    Assoc(s, w, y);
  }

  lemma Separated()
    ensures "&" + "$top=" == "&$top=" && "&" + "$filter=" == "&$filter="
  {
  }

  lemma NoFilterText(skip: int, top: int)
    ensures QueryText(Some(skip), Some(top), None) == "$skip=" + IntText(skip) + "&$top=" + IntText(top)
  {
    hide IntText, QueryText;
    TextNested(Some(skip), Some(top), None);
    assert "$top=" + IntText(top) + "" == "$top=" + IntText(top);
    Separated();
    Woven("$skip=" + IntText(skip), "&", "$top=", IntText(top), "", "");
  }

  function Front(skip: int, top: int): string {
    "$skip=" + IntText(skip) + "&$top=" + IntText(top) + "&$filter="
  }

  lemma FrontText(skip: int, top: int, filter: string)
    ensures QueryText(Some(skip), Some(top), Some(filter)) == Front(skip, top) + filter
  {
    hide IntText, QueryText;
    TextNested(Some(skip), Some(top), Some(filter));
    Separated();
    Woven("$skip=" + IntText(skip), "&", "$top=", IntText(top), "$filter=", filter);
  }

  /** Numbers are written in plain decimal. */
  lemma DecimalWitness()
    ensures IntText(0) == "0" && IntText(1907) == "1907" && IntText(-25) == "-25" && IntText(3486) == "3486"
  {
    assert NatText(190) == "190" && NatText(348) == "348" && NatText(25) == "25";
  }

  lemma EmptyFieldDiffers(q: Query)
    requires FirstPresent(q) == Some("")
    ensures PythonFilter(q) != CppFilter(q)
  {
    assert Quoted("Severity", "")[0] == 'S';
    if NonEmpty(q.messageId) {
      assert Quoted("MessageId", q.messageId.value)[0] == 'M';
    }
  }
}
