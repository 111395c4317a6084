/**
 Finding the JSON object in a model's answer (llm/bedrock.go, `balancedBraceEnd`,
 `extractJSONObject`).

 The scan only counts braces outside strings, so it knows nothing of JSON; that it finds the
 end of every JSON object is proved by induction over the value, its nesting, its whitespace
 and its escaped strings (RFC 8259, sections 2 to 7). Text before the object is skipped as long
 as every brace in it opens a balanced span that is not itself valid JSON.
 */
module JsonExtract {
  import opened Wrappers

  // ---------------------------------------------------------------- the scan

  datatype Scan = Scan(depth: int, inString: bool, escaped: bool)

  const START := Scan(0, false, false)

  /** The character closes the span. */
  predicate Closes(st: Scan, c: char) {
    !st.inString && c == '}' && st.depth == 1
  }

  function Step(st: Scan, c: char): Scan {
    if st.inString then
      if st.escaped then st.(escaped := false)
      else if c == '\\' then st.(escaped := true)
      else if c == '"' then st.(inString := false)
      else st
    else if c == '"' then st.(inString := true)
    else if c == '{' then st.(depth := st.depth + 1)
    else if c == '}' then st.(depth := st.depth - 1)
    else st
  }

  /** The position where the span being scanned at `i` closes. */
  function EndAt(s: string, i: nat, st: Scan): (end: Option<nat>)
    ensures end.Some? ==> i <= end.value < |s| && s[end.value] == '}'
    decreases |s| - i
  {
    if i >= |s| then None
    else if Closes(st, s[i]) then Some(i)
    else EndAt(s, i + 1, Step(st, s[i]))
  }

  method BalancedBraceEnd(s: string, start: nat) returns (end: Option<nat>)
    requires start <= |s|
    ensures end == EndAt(s, start, START)
  {
    var depth, inString, escaped := 0, false, false;
    for i := start to |s|
      invariant EndAt(s, start, START) == EndAt(s, i, Scan(depth, inString, escaped))
      invariant !inString ==> !escaped
    {
      var c := s[i];
      if inString {
        if escaped {
          escaped := false;
        } else if c == '\\' {
          escaped := true;
        } else if c == '"' {
          inString := false;
        }
        continue;
      }
      if c == '"' {
        inString := true;
      } else if c == '{' {
        depth := depth + 1;
      } else if c == '}' {
        depth := depth - 1;
        if depth == 0 {
          return Some(i);
        }
      }
    }
    end := None;
  }

  /** The state after scanning all of `t`, unless the span closes within it. */
  function Run(t: string, st: Scan): Option<Scan> {
    if t == "" then Some(st)
    else if Closes(st, t[0]) then None
    else Run(t[1..], Step(st, t[0]))
  }

  lemma {:induction false} RunConcat(a: string, b: string, st: Scan)
    ensures Run(a + b, st) == match Run(a, st) { case None => None case Some(mid) => Run(b, mid) }
    decreases |a|
  {
    if a == "" {
      assert a + b == b;
    } else {
      RunConcat(a[1..], b, Step(st, a[0]));
      assert (a + b)[1..] == a[1..] + b;
    }
  }

  lemma {:induction false} EndAfterRun(s: string, i: nat, t: string, st: Scan)
    requires i + |t| <= |s| && s[i..i + |t|] == t && Run(t, st).Some?
    ensures EndAt(s, i, st) == EndAt(s, i + |t|, Run(t, st).value)
    decreases |t|
  {
    if t != "" {
      assert s[i] == t[0] && s[i + 1..i + 1 + |t[1..]|] == t[1..];
      EndAfterRun(s, i + 1, t[1..], Step(st, t[0]));
    }
  }

  /** Scanning a part of a text finds the end the text has, if it lies in the part. */
  lemma {:induction false} EndInPart(s: string, p: nat, part: string, i: nat, st: Scan)
    requires p + |part| <= |s| && s[p..p + |part|] == part && i <= |part|
    ensures EndAt(part, i, st) ==
            match EndAt(s, p + i, st) { case None => None case Some(e) => if e < p + |part| then Some(e - p) else None }
    decreases |part| - i
  {
    if i < |part| {
      assert s[p + i] == part[i];
      if !Closes(st, part[i]) {
        EndInPart(s, p, part, i + 1, Step(st, part[i]));
      }
    }
  }

  // ---------------------------------------------------------------- extraction

  function NextBrace(s: string, from: nat): (k: Option<nat>)
    ensures k.Some? ==> from <= k.value < |s| && s[k.value] == '{'
    decreases |s| - from
  {
    if from >= |s| then None else if s[from] == '{' then Some(from) else NextBrace(s, from + 1)
  }

  /** The first valid span from a position on, scanning from brace to brace and skipping what a
      span covers. */
  function Extract(s: string, from: nat, valid: string -> bool): string
    decreases |s| - from
  {
    match NextBrace(s, from)
    case None => ""
    case Some(k) =>
      match EndAt(s, k, START)
      case None => ""
      case Some(e) => if valid(s[k..e + 1]) then s[k..e + 1] else Extract(s, e + 1, valid)
  }

  method IndexByte(s: string, from: nat) returns (k: Option<nat>)
    requires from <= |s|
    ensures k == NextBrace(s, from)
  {
    for i := from to |s|
      invariant NextBrace(s, from) == NextBrace(s, i)
    {
      if s[i] == '{' {
        return Some(i);
      }
    }
    k := None;
  }

  /** `valid` is the JSON library's verdict on a text. Each turn looks for the next brace beyond
      the span just rejected, so the scan ends on every input. */
  method ExtractJSONObject(s: string, valid: string -> bool) returns (found: string)
    ensures found == Extract(s, 0, valid)
  {
    var start := IndexByte(s, 0);
    ghost var from := 0;
    while start.Some?
      invariant from <= |s| && Extract(s, 0, valid) == Extract(s, from, valid)
      invariant start == NextBrace(s, from)
      decreases |s| - from
    {
      var end := BalancedBraceEnd(s, start.value);
      if end.None? {
        return "";
      }
      var candidate := s[start.value..end.value + 1];
      if valid(candidate) {
        return candidate;
      }
      start := IndexByte(s, end.value + 1);
      from := end.value + 1;
    }
    found := "";
  }

  // ---------------------------------------------------------------- what is found

  predicate Balanced(span: string) {
    span != "" && span[0] == '{' && EndAt(span, 0, START) == Some(|span| - 1)
  }

  /** Whatever is returned is a balanced span of the text that the library accepts. */
  lemma {:induction false} ExtractSound(s: string, from: nat, valid: string -> bool) returns (k: nat, e: nat)
    requires Extract(s, from, valid) != ""
    ensures from <= k <= e <= |s| && Extract(s, from, valid) == s[k..e]
    ensures valid(s[k..e]) && Balanced(s[k..e])
    decreases |s| - from
  {
    k := NextBrace(s, from).value;
    e := EndAt(s, k, START).value + 1;
    if valid(s[k..e]) {
      EndInPart(s, k, s[k..e], 0, START);
    } else {
      k, e := ExtractSound(s, e, valid);
    }
  }

  /** From here on, brace-free prose and balanced spans that are not JSON. */
  predicate Skippable(s: string, from: nat, valid: string -> bool)
    decreases |s| - from
  {
    match NextBrace(s, from)
    case None => true
    case Some(k) =>
      match EndAt(s, k, START)
      case None => false
      case Some(e) => !valid(s[k..e + 1]) && Skippable(s, e + 1, valid)
  }

  lemma {:induction false} NextBraceIn(s: string, prefix: string, from: nat)
    requires |prefix| < |s| && s[..|prefix|] == prefix && s[|prefix|] == '{' && from <= |prefix|
    ensures NextBrace(s, from) == if NextBrace(prefix, from).Some? then NextBrace(prefix, from) else Some(|prefix|)
    decreases |prefix| - from
  {
    if from < |prefix| {
      assert s[from] == prefix[from];
      NextBraceIn(s, prefix, from + 1);
    }
  }

  lemma FoundNext(s: string, p: nat, obj: string)
    requires p + |obj| <= |s| && s[p..p + |obj|] == obj && Balanced(obj)
    ensures s[p] == '{' && EndAt(s, p, START) == Some(p + |obj| - 1)
  {
    EndInPart(s, p, obj, 0, START);
    assert s[p] == s[p..p + |obj|][0];
  }

  lemma SameSpan(s: string, prefix: string, k: nat, e: nat)
    requires |prefix| <= |s| && s[..|prefix|] == prefix && k <= |prefix| && EndAt(prefix, k, START) == Some(e)
    ensures EndAt(s, k, START) == Some(e) && s[k..e + 1] == prefix[k..e + 1]
  {
    EndInPart(s, 0, prefix, k, START);
    forall j | k <= j <= e ensures s[j] == prefix[j] {
      assert s[j] == s[..|prefix|][j];
    }
  }

  lemma {:induction false} FoundFrom(s: string, prefix: string, from: nat, obj: string, valid: string -> bool)
    requires |prefix| + |obj| <= |s| && s[..|prefix|] == prefix && s[|prefix|..|prefix| + |obj|] == obj
    requires from <= |prefix| && Skippable(prefix, from, valid) && Balanced(obj) && valid(obj)
    ensures Extract(s, from, valid) == obj
    decreases |prefix| - from
  {
    NextBraceIn(s, prefix, from);
    match NextBrace(prefix, from)
    case None => FoundNext(s, |prefix|, obj);
    case Some(k) =>
      var e := EndAt(prefix, k, START).value;
      SameSpan(s, prefix, k, e);
      FoundFrom(s, prefix, e + 1, obj, valid);
  }

  /** A brace left open by the text before it stays open when `{}` or `{ }` follows. */
  lemma {:induction false} StaysOpen(prefix: string, obj: string, i: nat, st: Scan)
    requires i <= |prefix| && st.depth >= 1 && EndAt(prefix, i, st) == None
    requires obj == "{}" || obj == "{ }"
    ensures EndAt(prefix + obj, i, st) == None
    decreases |prefix| - i
  {
    var s := prefix + obj;
    if i < |prefix| {
      assert s[i] == prefix[i];
      StaysOpen(prefix, obj, i + 1, Step(st, s[i]));
    } else {
      EndInPart(s, |prefix|, obj, 0, st);
      OpenBehind(obj, st);
    }
  }

  lemma OpenBehind(obj: string, st: Scan)
    requires st.depth >= 1 && (obj == "{}" || obj == "{ }")
    ensures EndAt(obj, 0, st) == None
  {
    var first := Step(st, '{');
    var second := Step(first, obj[1]);
    assert EndAt(obj, 0, st) == EndAt(obj, 1, first) == EndAt(obj, 2, second);
  }

  /** Behind text that is not skippable, `{}` and `{ }` cannot both be found: extraction returns
      an earlier accepted span, or meets a brace that is left open and returns nothing. */
  lemma {:induction false} NotBothFound(prefix: string, from: nat, valid: string -> bool)
    requires from <= |prefix| && !Skippable(prefix, from, valid)
    ensures Extract(prefix + "{}", from, valid) != "{}" || Extract(prefix + "{ }", from, valid) != "{ }"
    decreases |prefix| - from
  {
    var s, t := prefix + "{}", prefix + "{ }";
    NextBraceIn(s, prefix, from);
    NextBraceIn(t, prefix, from);
    var k := NextBrace(prefix, from).value;
    match EndAt(prefix, k, START)
    case None =>
      assert s[k] == prefix[k] == '{';
      StaysOpen(prefix, "{}", k + 1, Step(START, '{'));
    case Some(e) =>
      SameSpan(s, prefix, k, e);
      SameSpan(t, prefix, k, e);
      if !valid(prefix[k..e + 1]) {
        NotBothFound(prefix, e + 1, valid);
      }
  }

  // ---------------------------------------------------------------- JSON values

  /** A character of a string: itself, or behind a backslash. A `\u` escape is an escaped `u`
      followed by four plain digits. */
  datatype Char = Plain(c: char) | Escaped(c: char)

  /** `Token` is a number or one of the three literals. `Spaced` is a value with whitespace around
      it. Whitespace also stands before the first element (`gap` of an array), before a key
      (`lead`), between a key and its colon (`gap` of a member), and in an empty object. */
  datatype Json =
    | Token(text: string)
    | Text(chars: seq<Char>)
    | Array(gap: string, elements: Elements)
    | Object(gap: string, members: Members)
    | Spaced(before: string, value: Json, after: string)
  datatype Elements = NoElements | Element(head: Json, tail: Elements)
  datatype Members =
    | NoMembers
    | Member(lead: string, key: seq<Char>, gap: string, value: Json, rest: Members)

  /** No quote and no brace. */
  predicate Inert(s: string) {
    forall k | 0 <= k < |s| :: s[k] != '"' && s[k] != '{' && s[k] != '}'
  }

  predicate PlainChars(chars: seq<Char>) {
    forall k | 0 <= k < |chars| :: chars[k].Plain? ==> chars[k].c != '"' && chars[k].c != '\\'
  }

  predicate Blank(s: string) {
    forall k | 0 <= k < |s| :: s[k] == ' ' || s[k] == '\t' || s[k] == '\n' || s[k] == '\r'
  }

  /** What the grammar of RFC 8259 asks of the parts, and less of some: numbers and literals hold
      no quote or brace, a string's plain characters no quote or backslash. */
  predicate WellFormed(v: Json) {
    match v
    case Token(text) => Inert(text)
    case Text(chars) => PlainChars(chars)
    case Array(gap, elements) => Blank(gap) && WellFormedElements(elements)
    case Object(gap, members) => Blank(gap) && WellFormedMembers(members)
    case Spaced(before, value, after) => Blank(before) && WellFormed(value) && Blank(after)
  }

  predicate WellFormedElements(es: Elements) {
    es.NoElements? || (WellFormed(es.head) && WellFormedElements(es.tail))
  }

  predicate WellFormedMembers(ms: Members) {
    ms.NoMembers?
    || (&& Blank(ms.lead) && PlainChars(ms.key) && Blank(ms.gap)
        && WellFormed(ms.value) && WellFormedMembers(ms.rest))
  }

  function PrintChars(chars: seq<Char>): string {
    if chars == [] then ""
    else (if chars[0].Plain? then [chars[0].c] else ['\\', chars[0].c]) + PrintChars(chars[1..])
  }

  function Quote(chars: seq<Char>): string {
    "\"" + PrintChars(chars) + "\""
  }

  function Print(v: Json): string {
    match v
    case Token(text) => text
    case Text(chars) => Quote(chars)
    case Array(gap, elements) => "[" + gap + PrintElements(elements) + "]"
    case Object(gap, members) => "{" + (gap + PrintMembers(members)) + "}"
    case Spaced(before, value, after) => before + Print(value) + after
  }

  function PrintElements(es: Elements): string {
    match es
    case NoElements => ""
    case Element(head, tail) => Print(head) + (if tail.NoElements? then "" else ",") + PrintElements(tail)
  }

  function PrintMembers(ms: Members): string {
    match ms
    case NoMembers => ""
    case Member(lead, key, gap, value, rest) =>
      lead + Quote(key) + gap + ":" + Print(value) + (if rest.NoMembers? then "" else ",") + PrintMembers(rest)
  }

  // ---------------------------------------------------------------- the scan passes over values

  /** Inside `depth` open braces, the scan passes over `s` and ends where it was. */
  predicate Passes(s: string, depth: int) {
    Run(s, Scan(depth, false, false)) == Some(Scan(depth, false, false))
  }

  lemma PassesConcat(a: string, b: string, depth: int)
    requires Passes(a, depth) && Passes(b, depth)
    ensures Passes(a + b, depth)
  {
    RunConcat(a, b, Scan(depth, false, false));
  }

  lemma {:induction false} PassesInert(s: string, depth: int)
    requires Inert(s)
    ensures Passes(s, depth)
  {
    if s != "" {
      assert forall k | 0 <= k < |s| - 1 :: s[1..][k] == s[k + 1];
      PassesInert(s[1..], depth);
    }
  }

  lemma {:induction false} StringStaysOpen(chars: seq<Char>, depth: int)
    requires PlainChars(chars)
    ensures Run(PrintChars(chars), Scan(depth, true, false)) == Some(Scan(depth, true, false))
  {
    var st := Scan(depth, true, false);
    if chars != [] {
      var rest := PrintChars(chars[1..]);
      StringStaysOpen(chars[1..], depth);
      if chars[0].Plain? {
        assert ([chars[0].c] + rest)[1..] == rest;
      } else {
        var s := ['\\', chars[0].c] + rest;
        assert s[1..] == [chars[0].c] + rest && s[1..][1..] == rest;
        assert Run(s[1..], Scan(depth, true, true)) == Run(rest, st);
      }
    }
  }

  lemma PassesQuote(chars: seq<Char>, depth: int)
    requires PlainChars(chars)
    ensures Passes(Quote(chars), depth)
  {
    var s := PrintChars(chars) + "\"";
    StringStaysOpen(chars, depth);
    RunConcat(PrintChars(chars), "\"", Scan(depth, true, false));
    assert Run("\"", Scan(depth, true, false)) == Run("\""[1..], Scan(depth, false, false));
    assert Quote(chars) == "\"" + s && ("\"" + s)[1..] == s;
  }

  lemma PassesBraces(inner: string, depth: int)
    requires depth >= 1 && Passes(inner, depth + 1)
    ensures Passes("{" + inner + "}", depth)
  {
    var s := inner + "}";
    RunConcat(inner, "}", Scan(depth + 1, false, false));
    assert "}"[1..] == "";
    assert Run("}", Scan(depth + 1, false, false)) == Run("", Scan(depth, false, false));
    assert "{" + inner + "}" == "{" + s && ("{" + s)[1..] == s;
  }

  lemma {:induction false} PassesValue(v: Json, depth: int)
    requires WellFormed(v) && depth >= 1
    ensures Passes(Print(v), depth)
    decreases v
  {
    match v
    case Token(text) => PassesInert(text, depth);
    case Text(chars) => PassesQuote(chars, depth);
    case Array(gap, elements) =>
      PassesInert("[" + gap, depth);
      PassesElements(elements, depth);
      PassesConcat("[" + gap, PrintElements(elements), depth);
      PassesInert("]", depth);
      PassesConcat("[" + gap + PrintElements(elements), "]", depth);
    case Object(gap, members) =>
      PassesInside(gap, members, depth + 1);
      PassesBraces(gap + PrintMembers(members), depth);
    case Spaced(before, value, after) =>
      PassesInert(before, depth);
      PassesValue(value, depth);
      PassesConcat(before, Print(value), depth);
      PassesInert(after, depth);
      PassesConcat(before + Print(value), after, depth);
  }

  lemma {:induction false} PassesElements(es: Elements, depth: int)
    requires WellFormedElements(es) && depth >= 1
    ensures Passes(PrintElements(es), depth)
    decreases es
  {
    if es.Element? {
      var comma := if es.tail.NoElements? then "" else ",";
      PassesValue(es.head, depth);
      PassesInert(comma, depth);
      PassesConcat(Print(es.head), comma, depth);
      PassesElements(es.tail, depth);
      PassesConcat(Print(es.head) + comma, PrintElements(es.tail), depth);
    }
  }

  lemma {:induction false} PassesInside(gap: string, ms: Members, depth: int)
    requires Blank(gap) && WellFormedMembers(ms) && depth >= 1
    ensures Passes(gap + PrintMembers(ms), depth)
    decreases ms, 1
  {
    PassesInert(gap, depth);
    PassesMembers(ms, depth);
    PassesConcat(gap, PrintMembers(ms), depth);
  }

  /** What stands before a member's value. */
  lemma PassesPair(lead: string, key: seq<Char>, gap: string, depth: int)
    requires Blank(lead) && PlainChars(key) && Blank(gap)
    ensures Passes(lead + Quote(key) + gap + ":", depth)
  {
    PassesInert(lead, depth);
    PassesQuote(key, depth);
    PassesInert(gap, depth);
    PassesInert(":", depth);
    PassesConcat(lead, Quote(key), depth);
    PassesConcat(lead + Quote(key), gap, depth);
    PassesConcat(lead + Quote(key) + gap, ":", depth);
  }

  lemma {:induction false} PassesMembers(ms: Members, depth: int)
    requires WellFormedMembers(ms) && depth >= 1
    ensures Passes(PrintMembers(ms), depth)
    decreases ms, 0
  {
    if ms.Member? {
      var comma := if ms.rest.NoMembers? then "" else ",";
      var pair := ms.lead + Quote(ms.key) + ms.gap + ":";
      PassesPair(ms.lead, ms.key, ms.gap, depth);
      PassesValue(ms.value, depth);
      PassesConcat(pair, Print(ms.value), depth);
      PassesInert(comma, depth);
      PassesConcat(pair + Print(ms.value), comma, depth);
      PassesMembers(ms.rest, depth);
      PassesConcat(pair + Print(ms.value) + comma, PrintMembers(ms.rest), depth);
    }
  }

  /** The span opened by a printed object's first brace closes at its last. */
  lemma ObjectIsBalanced(v: Json)
    requires v.Object? && WellFormed(v)
    ensures Balanced(Print(v))
  {
    var inner, s := v.gap + PrintMembers(v.members), Print(v);
    PassesInside(v.gap, v.members, 1);
    assert s[1..1 + |inner|] == inner;
    EndAfterRun(s, 1, inner, Scan(1, false, false));
    assert s[|s| - 1] == '}';
  }

  /** For every JSON object, printed with whatever whitespace, that the library accepts, any
      skippable text before it and any text after it, extraction returns it exactly. */
  lemma ExtractsObject(prefix: string, v: Json, suffix: string, valid: string -> bool)
    requires v.Object? && WellFormed(v) && valid(Print(v))
    requires Skippable(prefix, 0, valid)
    ensures Extract(prefix + Print(v) + suffix, 0, valid) == Print(v)
  {
    ObjectIsBalanced(v);
    var s := prefix + Print(v) + suffix;
    assert s[..|prefix|] == prefix && s[|prefix|..|prefix| + |Print(v)|] == Print(v);
    FoundFrom(s, prefix, 0, Print(v), valid);
  }

  /** Behind this text every accepted object is found, whatever follows it. */
  ghost predicate AlwaysFound(prefix: string, valid: string -> bool) {
    forall v: Json, suffix: string | v.Object? && WellFormed(v) && valid(Print(v)) ::
      Extract(prefix + Print(v) + suffix, 0, valid) == Print(v)
  }

  /** A library that accepts the empty object, with and without a blank, has every object found
      exactly behind the skippable texts. */
  lemma FoundExactly(prefix: string, valid: string -> bool)
    requires valid("{}") && valid("{ }")
    ensures AlwaysFound(prefix, valid) <==> Skippable(prefix, 0, valid)
  {
    if Skippable(prefix, 0, valid) {
      forall v: Json, suffix: string | v.Object? && WellFormed(v) && valid(Print(v))
        ensures Extract(prefix + Print(v) + suffix, 0, valid) == Print(v)
      {
        ExtractsObject(prefix, v, suffix, valid);
      }
    } else {
      var v, w := Object("", NoMembers), Object(" ", NoMembers);
      assert Print(v) == "{}" && Print(w) == "{ }";
      assert prefix + Print(v) + "" == prefix + "{}" && prefix + Print(w) + "" == prefix + "{ }";
      NotBothFound(prefix, 0, valid);
    }
  }

  /** Text with no brace at all is skippable, whatever quotes it holds. */
  lemma ExtractsBehindProse(prefix: string, v: Json, suffix: string, valid: string -> bool)
    requires v.Object? && WellFormed(v) && valid(Print(v)) && '{' !in prefix
    ensures Extract(prefix + Print(v) + suffix, 0, valid) == Print(v)
  {
    ExtractsObject(prefix, v, suffix, valid);
  }

  // ---------------------------------------------------------------- ordinary spelling

  datatype Entry = Entry(key: seq<Char>, value: Json)

  /** Keys and values with a blank after every colon and every comma between them. */
  function Spell(entries: seq<Entry>): string {
    if entries == [] then ""
    else
      Quote(entries[0].key) + ": " + Print(entries[0].value)
      + (if |entries| == 1 then "" else ", " + Spell(entries[1..]))
  }

  function MembersOf(entries: seq<Entry>, lead: string): Members {
    if entries == [] then NoMembers
    else Member(lead, entries[0].key, "", Spaced(" ", entries[0].value, ""), MembersOf(entries[1..], " "))
  }

  ghost predicate WellFormedEntries(entries: seq<Entry>) {
    forall k | 0 <= k < |entries| :: PlainChars(entries[k].key) && WellFormed(entries[k].value)
  }

  lemma PairSpelling(lead: string, key: string, value: string, comma: string, rest: string, tail: string)
    requires comma + rest == tail
    ensures lead + key + "" + ":" + (" " + value + "") + comma + rest == lead + (key + ": " + value + tail)
  {
    assert lead + key + "" + ":" + (" " + value + "") == lead + (key + ": " + value);
  }

  lemma {:induction false} SpelledMembers(entries: seq<Entry>, lead: string)
    requires WellFormedEntries(entries) && Blank(lead)
    ensures WellFormedMembers(MembersOf(entries, lead))
    ensures PrintMembers(MembersOf(entries, lead)) == (if entries == [] then "" else lead + Spell(entries))
  {
    if entries != [] {
      var e, rest := entries[0], entries[1..];
      SpelledMembers(rest, " ");
      if rest == [] {
        PairSpelling(lead, Quote(e.key), Print(e.value), "", "", "");
      } else {
        assert "," + (" " + Spell(rest)) == ", " + Spell(rest);
        PairSpelling(lead, Quote(e.key), Print(e.value), ",", " " + Spell(rest), ", " + Spell(rest));
      }
    }
  }

  /** So the answer a model gives, spelled as JSON usually is, is cut out exactly. */
  lemma ExtractsSpelled(prefix: string, entries: seq<Entry>, suffix: string, valid: string -> bool)
    requires WellFormedEntries(entries) && valid("{" + Spell(entries) + "}") && Skippable(prefix, 0, valid)
    ensures var text := "{" + Spell(entries) + "}"; Extract(prefix + text + suffix, 0, valid) == text
  {
    var v := Object("", MembersOf(entries, ""));
    SpelledMembers(entries, "");
    assert "" + Spell(entries) == Spell(entries);
    assert Print(v) == "{" + Spell(entries) + "}";
    ExtractsObject(prefix, v, suffix, valid);
  }
}
