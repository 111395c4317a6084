/**
 The live trace of an improve round (improve_trace.go, `traceWriter`; db/store.go,
 `AppendSuggestionTrace`, `ListSuggestionTrace`, `LatestSuggestionTraceSeq`; server.go,
 `traceLastSeq`).

 Streamed text is buffered per kind and flushed by size, by time or by the next event. Over any
 calls, what was written and what is still buffered spell what came in. Sequence numbers go on
 from where the trace stood, also for a writer started anew, so nothing is overwritten and a
 client polling with its cursor sees each stored event once, in order.
 */
module TraceLog {
  import opened Wrappers

  const FLUSH_BYTES := 400

  type Bytes = seq<bv8>

  datatype Kind = Answer | Thinking | RoundStart | Candidate | ReplayStart | ReplayDone | Note | Done | Error

  predicate Streamed(kind: Kind) {
    kind == Answer || kind == Thinking
  }

  datatype Entry = Entry(number: nat, kind: Kind, round: int, text: Bytes)

  /** The writer's fields. The text is pending exactly when a kind is. */
  datatype Writer = Writer(last: nat, round: int, pendKind: Option<Kind>, pendText: Bytes)

  /** `due` says that the flush interval has gone by. */
  datatype Call = Delta(kind: Kind, round: int, delta: Bytes, due: bool) | Mark(kind: Kind, round: int, text: Bytes)

  predicate ProperCall(call: Call) {
    call.Delta? <==> Streamed(call.kind)
  }

  predicate Proper(w: Writer) {
    && |w.pendText| < FLUSH_BYTES
    && (w.pendKind.Some? <==> w.pendText != [])
    && (w.pendKind.Some? ==> Streamed(w.pendKind.value))
  }

  function Fresh(startSeq: nat): Writer {
    Writer(startSeq, 0, None, [])
  }

  // ---------------------------------------------------------------- the writer as a function

  function Drained(w: Writer): Writer {
    if w.pendKind.None? || w.pendText == [] then w else Writer(w.last + 1, w.round, None, [])
  }

  function Pending(w: Writer): seq<Entry> {
    if w.pendKind.None? || w.pendText == [] then [] else [Entry(w.last + 1, w.pendKind.value, w.round, w.pendText)]
  }

  function Switch(w: Writer, kind: Kind): bool {
    w.pendKind.Some? && w.pendKind.value != kind
  }

  function Buffered(w: Writer, kind: Kind, round: int, delta: Bytes): Writer {
    var v := if Switch(w, kind) then Drained(w) else w;
    Writer(v.last, round, Some(kind), v.pendText + delta)
  }

  predicate Flushes(buffered: Writer, due: bool) {
    |buffered.pendText| >= FLUSH_BYTES || due
  }

  function After(w: Writer, call: Call): Writer {
    match call
    case Mark(kind, round, text) => Drained(w).(last := Drained(w).last + 1, round := round)
    case Delta(kind, round, delta, due) =>
      var b := Buffered(w, kind, round, delta);
      if delta == [] then w else if Flushes(b, due) then Drained(b) else b
  }

  function Written(w: Writer, call: Call): seq<Entry> {
    match call
    case Mark(kind, round, text) => Pending(w) + [Entry(Drained(w).last + 1, kind, round, text)]
    case Delta(kind, round, delta, due) =>
      var b := Buffered(w, kind, round, delta);
      if delta == [] then []
      else (if Switch(w, kind) then Pending(w) else []) + (if Flushes(b, due) then Pending(b) else [])
  }

  function AfterAll(w: Writer, calls: seq<Call>): Writer {
    if calls == [] then w else After(AfterAll(w, calls[..|calls| - 1]), calls[|calls| - 1])
  }

  function WrittenAll(w: Writer, calls: seq<Call>): seq<Entry> {
    if calls == [] then []
    else
      var before := calls[..|calls| - 1];
      WrittenAll(w, before) + Written(AfterAll(w, before), calls[|calls| - 1])
  }

  // ---------------------------------------------------------------- what the trace spells

  /** A byte of streamed text, or a whole structural event. */
  datatype Letter = Byte(byteKind: Kind, byteRound: int, byte: bv8) | Whole(kind: Kind, round: int, text: Bytes)

  /** `rounds` tells whether letters carry their round. */
  function Spell(kind: Kind, round: int, text: Bytes, rounds: bool): seq<Letter> {
    var r := if rounds then round else 0;
    if Streamed(kind) then SpellBytes(kind, r, text) else [Whole(kind, r, text)]
  }

  function SpellBytes(kind: Kind, round: int, text: Bytes): seq<Letter> {
    if text == [] then []
    else SpellBytes(kind, round, text[..|text| - 1]) + [Byte(kind, round, text[|text| - 1])]
  }

  lemma {:induction false} SpellBytesConcat(kind: Kind, round: int, a: Bytes, b: Bytes)
    ensures SpellBytes(kind, round, a + b) == SpellBytes(kind, round, a) + SpellBytes(kind, round, b)
  {
    if b == [] {
      assert a + b == a;
    } else {
      SpellBytesConcat(kind, round, a, b[..|b| - 1]);
      assert (a + b)[..|a + b| - 1] == a + b[..|b| - 1];
    }
  }

  function SpellCalls(calls: seq<Call>, rounds: bool): seq<Letter> {
    if calls == [] then []
    else
      var c := calls[|calls| - 1];
      SpellCalls(calls[..|calls| - 1], rounds) + Spell(c.kind, c.round, if c.Delta? then c.delta else c.text, rounds)
  }

  function SpellEvents(events: seq<Entry>, rounds: bool): seq<Letter> {
    if events == [] then []
    else
      var e := events[|events| - 1];
      SpellEvents(events[..|events| - 1], rounds) + Spell(e.kind, e.round, e.text, rounds)
  }

  function SpellPending(w: Writer, rounds: bool): seq<Letter> {
    SpellEvents(Pending(w), rounds)
  }

  /** Text is not streamed on into the same buffer under another round. */
  predicate SteadyCall(w: Writer, call: Call) {
    call.Delta? && w.pendKind == Some(call.kind) ==> call.round == w.round
  }

  predicate Steady(w: Writer, calls: seq<Call>) {
    calls == []
    || (Steady(w, calls[..|calls| - 1]) && SteadyCall(AfterAll(w, calls[..|calls| - 1]), calls[|calls| - 1]))
  }

  lemma {:induction false} SpellConcat(xs: seq<Entry>, ys: seq<Entry>, rounds: bool)
    ensures SpellEvents(xs + ys, rounds) == SpellEvents(xs, rounds) + SpellEvents(ys, rounds)
  {
    if ys == [] {
      assert xs + ys == xs;
    } else {
      var before, e := ys[..|ys| - 1], ys[|ys| - 1];
      SpellConcat(xs, before, rounds);
      assert (xs + ys)[..|xs + ys| - 1] == xs + before && (xs + ys)[|xs + ys| - 1] == e;
      Assoc(SpellEvents(xs, rounds), SpellEvents(before, rounds), Spell(e.kind, e.round, e.text, rounds));
    }
  }

  lemma Assoc(a: seq<Letter>, b: seq<Letter>, c: seq<Letter>)
    ensures a + b + c == a + (b + c)
  {
  }

  lemma SpellOne(e: Entry, rounds: bool)
    ensures SpellEvents([e], rounds) == Spell(e.kind, e.round, e.text, rounds)
  {
    assert [e][..0] == [];
  }

  /** The buffer with one more delta spells what it did and the delta. */
  lemma SpellBuffered(w: Writer, call: Call, rounds: bool)
    requires Proper(w) && call.Delta? && ProperCall(call) && call.delta != []
    requires rounds ==> SteadyCall(w, call)
    ensures (if Switch(w, call.kind) then SpellPending(w, rounds) else [])
            + SpellPending(Buffered(w, call.kind, call.round, call.delta), rounds)
            == SpellPending(w, rounds) + Spell(call.kind, call.round, call.delta, rounds)
  {
    var b := Buffered(w, call.kind, call.round, call.delta);
    SpellOne(Entry(b.last + 1, call.kind, call.round, b.pendText), rounds);
    if Switch(w, call.kind) {
      assert b.pendText == call.delta;
    } else if w.pendKind.Some? {
      SpellOne(Entry(w.last + 1, call.kind, w.round, w.pendText), rounds);
      SpellBytesConcat(call.kind, if rounds then call.round else 0, w.pendText, call.delta);
    } else {
      assert b.pendText == call.delta;
    }
  }

  lemma DrainedSpellsNothing(w: Writer, rounds: bool)
    ensures SpellPending(Drained(w), rounds) == []
  {
  }

  lemma MarkSpells(w: Writer, kind: Kind, round: int, text: Bytes, rounds: bool)
    ensures SpellEvents(Written(w, Mark(kind, round, text)), rounds)
            == SpellPending(w, rounds) + Spell(kind, round, text, rounds)
  {
    var e := Entry(Drained(w).last + 1, kind, round, text);
    SpellConcat(Pending(w), [e], rounds);
    SpellOne(e, rounds);
  }

  lemma DeltaSpells(w: Writer, call: Call, rounds: bool)
    requires Proper(w) && call.Delta? && ProperCall(call) && call.delta != []
    requires rounds ==> SteadyCall(w, call)
    ensures SpellEvents(Written(w, call), rounds) + SpellPending(After(w, call), rounds)
            == SpellPending(w, rounds) + Spell(call.kind, call.round, call.delta, rounds)
  {
    var b := Buffered(w, call.kind, call.round, call.delta);
    var first := if Switch(w, call.kind) then Pending(w) else [];
    SpellBuffered(w, call, rounds);
    if Flushes(b, call.due) {
      SpellConcat(first, Pending(b), rounds);
      DrainedSpellsNothing(b, rounds);
    } else {
      assert first + [] == first;
    }
  }

  lemma CallKeepsProper(w: Writer, call: Call)
    requires Proper(w) && ProperCall(call)
    ensures Proper(After(w, call))
  {
  }

  lemma CallSpells(w: Writer, call: Call, rounds: bool)
    requires Proper(w) && ProperCall(call) && (rounds ==> SteadyCall(w, call))
    ensures SpellEvents(Written(w, call), rounds) + SpellPending(After(w, call), rounds)
            == SpellPending(w, rounds)
                + Spell(call.kind, call.round, if call.Delta? then call.delta else call.text, rounds)
  {
    if call.Mark? {
      MarkSpells(w, call.kind, call.round, call.text, rounds);
      DrainedSpellsNothing(w, rounds);
    } else if call.delta != [] {
      DeltaSpells(w, call, rounds);
    }
  }

  ghost predicate ProperCalls(calls: seq<Call>) {
    forall k | 0 <= k < |calls| :: ProperCall(calls[k])
  }

  lemma {:induction false} StaysProper(w: Writer, calls: seq<Call>)
    requires Proper(w) && ProperCalls(calls)
    ensures Proper(AfterAll(w, calls))
  {
    if calls != [] {
      StaysProper(w, calls[..|calls| - 1]);
      CallKeepsProper(AfterAll(w, calls[..|calls| - 1]), calls[|calls| - 1]);
    }
  }

  /** Over any calls, the events written and then the buffer spell exactly what came in: nothing
      lost, doubled, reordered, or moved to another kind. With rounds on the letters, too, as long
      as no buffered text is continued under another round. */
  lemma {:induction false} TraceSpells(w: Writer, calls: seq<Call>, rounds: bool)
    requires Proper(w) && w.pendKind.None? && ProperCalls(calls)
    requires rounds ==> Steady(w, calls)
    ensures SpellEvents(WrittenAll(w, calls), rounds) + SpellPending(AfterAll(w, calls), rounds)
            == SpellCalls(calls, rounds)
  {
    if calls != [] {
      var before, call := calls[..|calls| - 1], calls[|calls| - 1];
      var v := AfterAll(w, before);
      TraceSpells(w, before, rounds);
      StaysProper(w, before);
      CallSpells(v, call, rounds);
      SpellConcat(WrittenAll(w, before), Written(v, call), rounds);
      Rejoin(SpellEvents(WrittenAll(w, before), rounds), SpellEvents(Written(v, call), rounds),
             SpellPending(After(v, call), rounds), SpellPending(v, rounds),
             Spell(call.kind, call.round, if call.Delta? then call.delta else call.text, rounds));
    }
  }

  lemma Rejoin(written: seq<Letter>, now: seq<Letter>, left: seq<Letter>, buffered: seq<Letter>, call: seq<Letter>)
    requires now + left == buffered + call
    ensures written + now + left == written + buffered + call
  {
    assert written + now + left == written + (now + left);
    assert written + buffered + call == written + (buffered + call);
  }

  /** After a structural event nothing is left in the buffer: the trace spells everything. */
  lemma EventFlushesAll(startSeq: nat, calls: seq<Call>, last: Call, rounds: bool)
    requires ProperCalls(calls) && last.Mark? && ProperCall(last)
    requires rounds ==> Steady(Fresh(startSeq), calls + [last])
    ensures SpellEvents(WrittenAll(Fresh(startSeq), calls + [last]), rounds) == SpellCalls(calls + [last], rounds)
  {
    var w := Fresh(startSeq);
    assert (calls + [last])[..|calls|] == calls;
    TraceSpells(w, calls + [last], rounds);
    DrainedSpellsNothing(AfterAll(w, calls), rounds);
  }

  // ---------------------------------------------------------------- sequence numbers

  ghost predicate Consecutive(events: seq<Entry>, from: nat) {
    forall k | 0 <= k < |events| :: events[k].number == from + 1 + k
  }

  /** Numbers run on without gap from where the trace stood, and streamed events are never empty. */
  lemma {:induction false} NumbersRunOn(w: Writer, calls: seq<Call>)
    requires Proper(w) && ProperCalls(calls)
    ensures Consecutive(WrittenAll(w, calls), w.last)
    ensures AfterAll(w, calls).last == w.last + |WrittenAll(w, calls)|
    ensures TextInEach(WrittenAll(w, calls))
  {
    if calls != [] {
      var before := calls[..|calls| - 1];
      NumbersRunOn(w, before);
      StaysProper(w, before);
      OneCallRunsOn(AfterAll(w, before), calls[|calls| - 1]);
      RunOn(WrittenAll(w, before), Written(AfterAll(w, before), calls[|calls| - 1]), w.last);
    }
  }

  ghost predicate TextInEach(events: seq<Entry>) {
    forall k | 0 <= k < |events| :: Streamed(events[k].kind) ==> events[k].text != []
  }

  lemma RunOn(xs: seq<Entry>, ys: seq<Entry>, from: nat)
    requires Consecutive(xs, from) && Consecutive(ys, from + |xs|) && TextInEach(xs) && TextInEach(ys)
    ensures Consecutive(xs + ys, from) && TextInEach(xs + ys)
  {
  }

  lemma OneCallRunsOn(w: Writer, call: Call)
    requires Proper(w) && ProperCall(call)
    ensures Consecutive(Written(w, call), w.last) && After(w, call).last == w.last + |Written(w, call)|
    ensures TextInEach(Written(w, call))
  {
  }

  /** A delta is kept back exactly while the interval lasts and fewer than 400 bytes of its kind have
      come together; otherwise all of them are written as one event. Text of the other kind goes
      out first. */
  lemma FlushesExactly(w: Writer, kind: Kind, round: int, delta: Bytes, due: bool)
    requires Proper(w) && Streamed(kind) && delta != []
    ensures var call := Delta(kind, round, delta, due);
            var mine := (if w.pendKind == Some(kind) then w.pendText else []) + delta;
            var other := if w.pendKind.Some? && w.pendKind != Some(kind)
                         then [Entry(w.last + 1, w.pendKind.value, w.round, w.pendText)] else [];
            if due || |mine| >= 400
            then Written(w, call) == other + [Entry(w.last + |other| + 1, kind, round, mine)]
                 && After(w, call).pendText == []
            else Written(w, call) == other
                 && After(w, call).pendKind == Some(kind) && After(w, call).pendText == mine
  {
  }

  // ---------------------------------------------------------------- the store and its readers

  type Items = map<nat, Entry>

  ghost predicate Bounded(items: Items, latest: nat) {
    && (forall n | n in items :: 0 < n <= latest && items[n].number == n)
    && (latest > 0 ==> latest in items)
  }

  /** The stored events numbered above `after`, up to `upTo`, ascending. */
  function Listing(items: Items, after: nat, upTo: nat): seq<Entry>
    decreases upTo
  {
    if upTo <= after then []
    else Listing(items, after, upTo - 1) + (if upTo in items then [items[upTo]] else [])
  }

  function Put(items: Items, events: seq<Entry>): Items {
    if events == [] then items
    else Put(items, events[..|events| - 1])[events[|events| - 1].number := events[|events| - 1]]
  }

  lemma {:induction false} PutAbove(items: Items, latest: nat, events: seq<Entry>, from: nat)
    requires Bounded(items, latest) && latest <= from && Consecutive(events, from)
    ensures Bounded(Put(items, events), if events == [] then latest else from + |events|)
    ensures forall n: nat | n <= from :: (n in Put(items, events) <==> n in items)
                                         && (n in items ==> Put(items, events)[n] == items[n])
    ensures forall k | 0 <= k < |events| ::
              events[k].number in Put(items, events) && Put(items, events)[events[k].number] == events[k]
  {
    if events != [] {
      var before := events[..|events| - 1];
      PutAbove(items, latest, before, from);
      forall k | 0 <= k < |before|
        ensures events[k].number in Put(items, events) && Put(items, events)[events[k].number] == events[k]
      {
        assert events[k] == before[k];
      }
    }
  }

  lemma {:induction false} ListingSame(a: Items, b: Items, after: nat, upTo: nat)
    requires forall n: nat | n <= upTo :: (n in a <==> n in b) && (n in a ==> a[n] == b[n])
    ensures Listing(a, after, upTo) == Listing(b, after, upTo)
    decreases upTo
  {
    if upTo > after {
      ListingSame(a, b, after, upTo - 1);
    }
  }

  lemma {:induction false} ListingSplit(items: Items, after: nat, mid: nat, upTo: nat)
    requires after <= mid <= upTo
    ensures Listing(items, after, upTo) == Listing(items, after, mid) + Listing(items, mid, upTo)
    decreases upTo
  {
    if mid < upTo {
      ListingSplit(items, after, mid, upTo - 1);
    }
  }

  lemma {:induction false} ListingLast(items: Items, after: nat, latest: nat)
    requires Bounded(items, latest)
    ensures after < latest ==>
              Listing(items, after, latest) != []
              && Listing(items, after, latest)[|Listing(items, after, latest)| - 1].number == latest
    ensures forall e | e in Listing(items, after, latest) :: after < e.number <= latest
    decreases latest
  {
    ListingRange(items, after, latest, latest);
  }

  lemma {:induction false} ListingRange(items: Items, after: nat, upTo: nat, latest: nat)
    requires Bounded(items, latest) && upTo <= latest
    ensures forall e | e in Listing(items, after, upTo) :: after < e.number <= upTo
    decreases upTo
  {
    if upTo > after {
      ListingRange(items, after, upTo - 1, latest);
    }
  }

  /** The cursor to poll with next: it never goes back. */
  method TraceLastSeq(after: nat, events: seq<Entry>) returns (last: nat)
    ensures last == NextCursor(after, events)
    ensures last >= after && forall e | e in events :: e.number <= last
  {
    last := after;
    for k := 0 to |events|
      invariant last == NextCursor(after, events[..k])
    {
      assert events[..k + 1][..k] == events[..k];
      if events[k].number > last {
        last := events[k].number;
      }
    }
    assert events[..|events|] == events;
    HighestIs(events);
  }

  function NextCursor(after: nat, events: seq<Entry>): nat {
    if Highest(events) > after then Highest(events) else after
  }

  function Highest(events: seq<Entry>): nat {
    if events == [] then 0
    else
      var e, before := events[|events| - 1], Highest(events[..|events| - 1]);
      if e.number > before then e.number else before
  }

  lemma {:induction false} HighestIs(events: seq<Entry>)
    ensures forall i | 0 <= i < |events| :: events[i].number <= Highest(events)
    ensures Highest(events) == 0 || exists i :: 0 <= i < |events| && events[i].number == Highest(events)
  {
    if events != [] {
      HighestIs(events[..|events| - 1]);
    }
  }

  /** A client: its cursor, and the events it has been handed, in order. */
  datatype Client = Client(cursor: nat, seen: seq<Entry>)

  /** It has seen exactly the stored events up to its cursor, each once, in order. */
  ghost predicate UpToDate(client: Client, items: Items, latest: nat) {
    client.cursor <= latest && client.seen == Listing(items, 0, client.cursor)
  }

  /** A poll moves the cursor to the end and hands over exactly what was stored since. */
  lemma PollCatchesUp(client: Client, items: Items, latest: nat)
    requires Bounded(items, latest) && UpToDate(client, items, latest)
    ensures var page := Listing(items, client.cursor, latest);
            var next := NextCursor(client.cursor, page);
            next == latest && UpToDate(Client(next, client.seen + page), items, latest)
  {
    var page := Listing(items, client.cursor, latest);
    ListingSplit(items, 0, client.cursor, latest);
    ListingLast(items, client.cursor, latest);
    HighestIs(page);
    if client.cursor < latest {
      assert page[|page| - 1] in page;
    }
  }

  /** Events appended above everything stored leave every client up to date. */
  lemma AppendKeepsUpToDate(client: Client, items: Items, latest: nat, events: seq<Entry>, from: nat)
    requires Bounded(items, latest) && UpToDate(client, items, latest)
    requires latest <= from && Consecutive(events, from)
    ensures UpToDate(client, Put(items, events), if events == [] then latest else from + |events|)
  {
    PutAbove(items, latest, events, from);
    ListingSame(items, Put(items, events), 0, client.cursor);
  }

  // ---------------------------------------------------------------- whole runs

  /** One suggestion's trace: the stored events, the current writer, and one polling client. */
  datatype System = System(items: Items, latest: nat, writer: Writer, client: Client)

  /** A writer call, its write succeeding or lost; a new attempt at the suggestion with its own
      writer, which starts from the latest stored number, or from 0 when looking it up fails; a
      poll; a page loaded anew. */
  datatype Act = Write(call: Call, fails: bool) | NewAttempt(found: bool) | Poll | Reload

  function Opened(): System {
    System(map[], 0, Fresh(0), Client(0, []))
  }

  function Next(s: System, act: Act): System {
    match act
    case Write(call, fails) =>
      var events := Written(s.writer, call);
      if fails || events == [] then s.(writer := After(s.writer, call))
      else
        var last := s.writer.last + |events|;
        s.(items := Put(s.items, events), latest := if last > s.latest then last else s.latest,
           writer := After(s.writer, call))
    case NewAttempt(found) => s.(writer := Fresh(if found then s.latest else 0))
    case Poll =>
      var page := Listing(s.items, s.client.cursor, s.latest);
      s.(client := Client(NextCursor(s.client.cursor, page), s.client.seen + page))
    case Reload => s.(client := Client(0, []))
  }

  predicate ProperActs(acts: seq<Act>) {
    forall k | 0 <= k < |acts| :: acts[k].Write? ==> ProperCall(acts[k].call)
  }

  function Run(s: System, acts: seq<Act>): System {
    if acts == [] then s else Next(Run(s, acts[..|acts| - 1]), acts[|acts| - 1])
  }

  ghost predicate Sound(s: System) {
    && Bounded(s.items, s.latest) && s.latest <= s.writer.last && Proper(s.writer)
    && UpToDate(s.client, s.items, s.latest)
  }

  lemma StoredKeepsBounded(s: System, events: seq<Entry>)
    requires Sound(s) && Consecutive(events, s.writer.last) && events != []
    ensures Bounded(Put(s.items, events), s.writer.last + |events|)
  {
    PutAbove(s.items, s.latest, events, s.writer.last);
  }

  lemma WriteKeepsSound(s: System, call: Call, fails: bool)
    requires Sound(s) && ProperCall(call)
    ensures Sound(Next(s, Write(call, fails)))
  {
    var events := Written(s.writer, call);
    CallKeepsProper(s.writer, call);
    OneCallRunsOn(s.writer, call);
    if !fails && events != [] {
      StoredKeepsBounded(s, events);
      AppendKeepsUpToDate(s.client, s.items, s.latest, events, s.writer.last);
    }
  }

  /** A failed lookup does no harm exactly while nothing is stored. */
  lemma AttemptKeepsSound(s: System, found: bool)
    requires Sound(s)
    ensures Sound(Next(s, NewAttempt(found))) <==> found || s.latest == 0
  {
  }

  lemma ActKeepsSound(s: System, act: Act)
    requires Sound(s) && (act.Write? ==> ProperCall(act.call)) && (act.NewAttempt? ==> act.found || s.latest == 0)
    ensures Sound(Next(s, act))
  {
    match act
    case Write(call, fails) => WriteKeepsSound(s, call, fails);
    case NewAttempt(found) => AttemptKeepsSound(s, found);
    case Poll => PollCatchesUp(s.client, s.items, s.latest);
    case Reload =>
  }

  lemma PutOne(items: Items, event: Entry)
    ensures Put(items, [event]) == items[event.number := event]
  {
    assert Put(items, []) == items && [event][..0] == [];
  }

  /** With events stored, an attempt whose lookup failed writes its first event over the first
      stored one, and a client that is past that number is never handed the new event. */
  lemma FailedLookupOverwrites(s: System, kind: Kind, round: int, text: Bytes)
    requires Sound(s) && 1 in s.items && !Streamed(kind)
    ensures var t := Next(Next(s, NewAttempt(false)), Write(Mark(kind, round, text), false));
            && t.items == s.items[1 := Entry(1, kind, round, text)] && t.latest == s.latest
            && (s.client.cursor == s.latest ==> Next(t, Poll).client == s.client)
  {
    var call := Mark(kind, round, text);
    var started := Next(s, NewAttempt(false));
    var event := Entry(1, kind, round, text);
    assert Written(started.writer, call) == [event];
    PutOne(s.items, event);
    assert Listing(s.items[1 := event], s.latest, s.latest) == [];
  }

  /** A lookup fails only while nothing is stored. */
  predicate LookupsFound(acts: seq<Act>) {
    forall k | 0 <= k < |acts| :: acts[k].NewAttempt? ==> acts[k].found || Run(Opened(), acts[..k]).latest == 0
  }

  lemma EarlierLookups(acts: seq<Act>)
    requires acts != [] && LookupsFound(acts)
    ensures LookupsFound(acts[..|acts| - 1])
  {
    var before := acts[..|acts| - 1];
    assert forall k | 0 <= k < |before| :: before[..k] == acts[..k];
  }

  /** Over any interleaving of writes, lost writes, attempts made anew, polls and reloads, the
      client has seen each stored event up to its cursor once and in order, and a poll brings it
      to the end; and no act takes back or overwrites a stored event. */
  lemma {:induction false} ClientSeesEachOnce(acts: seq<Act>)
    requires ProperActs(acts) && LookupsFound(acts)
    ensures Sound(Run(Opened(), acts))
    ensures acts != [] && acts[|acts| - 1].Poll? ==>
              var s := Run(Opened(), acts); s.client == Client(s.latest, Listing(s.items, 0, s.latest))
    ensures acts != [] ==>
              var before, after := Run(Opened(), acts[..|acts| - 1]), Run(Opened(), acts);
              forall n | n in before.items :: n in after.items && after.items[n] == before.items[n]
  {
    if acts != [] {
      var before, act := Run(Opened(), acts[..|acts| - 1]), acts[|acts| - 1];
      EarlierLookups(acts);
      ClientSeesEachOnce(acts[..|acts| - 1]);
      ActKeepsSound(before, act);
      if act.Write? {
        OneCallRunsOn(before.writer, act.call);
        PutAbove(before.items, before.latest, Written(before.writer, act.call), before.writer.last);
      }
      if act.Poll? {
        PollCatchesUp(before.client, before.items, before.latest);
      }
    }
  }

  // ---------------------------------------------------------------- classes

  class Store {
    var items: Items
    var latest: nat

    ghost predicate Valid()
      reads this
    {
      Bounded(items, latest)
    }

    constructor ()
      ensures Valid() && items == map[] && latest == 0
    {
      items, latest := map[], 0;
    }

    /** One batch; a failed write leaves the trace as it was. */
    method Append(events: seq<Entry>, ghost from: nat, fails: bool)
      requires Valid() && latest <= from && Consecutive(events, from)
      modifies this
      ensures Valid()
      ensures items == if fails then old(items) else Put(old(items), events)
      ensures latest == if fails || events == [] then old(latest) else from + |events|
    {
      if fails {
        return;
      }
      ghost var before := items;
      PutAbove(before, latest, events, from);
      for k := 0 to |events|
        invariant items == Put(before, events[..k])
        invariant latest == old(latest)
      {
        assert events[..k + 1][..k] == events[..k];
        items := items[events[k].number := events[k]];
      }
      assert events[..|events|] == events;
      if |events| > 0 {
        latest := events[|events| - 1].number;
      }
    }

    method List(after: nat) returns (events: seq<Entry>)
      requires Valid()
      ensures events == Listing(items, after, latest)
    {
      events := [];
      var n := after;
      while n < latest
        invariant after <= n && (n <= latest || n == after)
        invariant events == Listing(items, after, n)
      {
        n := n + 1;
        if n in items {
          events := events + [items[n]];
        }
      }
      if latest < after {
        assert Listing(items, after, latest) == [];
      }
    }
  }

  class TraceWriter {
    const store: Store
    var last: nat
    var round: int
    var pendKind: Option<Kind>
    var pendText: Bytes

    ghost function Model(): Writer
      reads this
    {
      Writer(last, round, pendKind, pendText)
    }

    ghost predicate Valid()
      reads this, store
    {
      store.Valid() && store.latest <= last && Proper(Model())
    }

    /** A writer starts where the stored trace ends, also for an attempt made anew, and at 0 when
        the lookup of that number failed. */
    constructor (store: Store, found: bool)
      requires store.Valid()
      ensures this.store == store && Model() == Fresh(if found then store.latest else 0)
      ensures Valid() <==> found || store.latest == 0
    {
      this.store := store;
      last, round, pendKind, pendText := if found then store.latest else 0, 0, None, [];
    }

    method Drain() returns (events: seq<Entry>)
      modifies this
      ensures Model() == Drained(old(Model())) && events == Pending(old(Model()))
    {
      events := [];
      if pendKind.None? || pendText == [] {
        return;
      }
      last := last + 1;
      events := [Entry(last, pendKind.value, round, pendText)];
      pendKind, pendText := None, [];
    }

    method Event(kind: Kind, round: int, text: Bytes, fails: bool) returns (events: seq<Entry>)
      requires Valid() && !Streamed(kind)
      modifies this, store
      ensures Valid()
      ensures Model() == After(old(Model()), Mark(kind, round, text))
              && events == Written(old(Model()), Mark(kind, round, text))
      ensures store.items == if fails then old(store.items) else Put(old(store.items), events)
    {
      ghost var from, w := last, Model();
      CallKeepsProper(w, Mark(kind, round, text));
      OneCallRunsOn(w, Mark(kind, round, text));
      events := Drain();
      this.round := round;
      last := last + 1;
      events := events + [Entry(last, kind, round, text)];
      store.Append(events, from, fails);
    }

    method Text(kind: Kind, round: int, delta: Bytes, due: bool, fails: bool) returns (events: seq<Entry>)
      requires Valid() && Streamed(kind)
      modifies this, store
      ensures Valid()
      ensures Model() == After(old(Model()), Delta(kind, round, delta, due))
      ensures events == Written(old(Model()), Delta(kind, round, delta, due))
      ensures store.items == if fails then old(store.items) else Put(old(store.items), events)
    {
      events := [];
      if delta == [] {
        return;
      }
      ghost var from, w, call := last, Model(), Delta(kind, round, delta, due);
      CallKeepsProper(w, call);
      OneCallRunsOn(w, call);
      events := Buffer(kind, round, delta);
      if |pendText| >= FLUSH_BYTES || due {
        var more := Drain();
        events := events + more;
      }
      assert events == Written(w, call) && Model() == After(w, call);
      if |events| > 0 {
        store.Append(events, from, fails);
      }
    }

    method Buffer(kind: Kind, round: int, delta: Bytes) returns (events: seq<Entry>)
      modifies this
      ensures Model() == Buffered(old(Model()), kind, round, delta)
      ensures events == if Switch(old(Model()), kind) then Pending(old(Model())) else []
    {
      events := [];
      if pendKind.Some? && pendKind.value != kind {
        events := Drain();
      }
      pendKind := Some(kind);
      this.round := round;
      pendText := pendText + delta;
    }
  }
}
