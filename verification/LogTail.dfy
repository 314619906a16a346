/** The combined log: the agent appends frames to a stream log and records them in an order
    log (internal/agent/agent.go:590-620); the server follows the growing order log in chunks,
    splits it into lines and sends the frames they name (internal/httpapi/log_stream.go:119-221). */
module LogTail {
  import opened Domain

  type Bytes = seq<bv8>

  const NEWLINE: bv8 := 10

  const CHUNK := 0x1_0000

  const TAIL := 0x4_0000

  datatype Record = Record(sequence: int, stream: string, start: int, next: int)

  /** A line of the order log naming a frame; its id is the offset just behind the line. */
  datatype Event = Event(id: nat, record: Record)

  datatype Frame = Frame(event: Event, data: Bytes)

  datatype Logs = Logs(order: Bytes, streams: map<string, Bytes>)

  // ---------------------------------------------------------------- lines and events

  function FirstNewline(s: Bytes): (n: int)
    ensures -1 <= n < |s|
    ensures n >= 0 ==> s[n] == NEWLINE && NEWLINE !in s[..n]
    ensures n < 0 ==> NEWLINE !in s
  {
    if s == [] then -1
    else if s[0] == NEWLINE then 0
    else
      var n := FirstNewline(s[1..]);
      assert n >= 0 ==> s[..n + 1] == [s[0]] + s[1..][..n];
      if n < 0 then -1 else n + 1
  }

  predicate WellFormed(r: Option<Record>) {
    r.Some? && (r.value.stream == "stdout" || r.value.stream == "stderr") && r.value.start >= 0 && r.value.next >= r.value.start
  }

  function EventOf(decode: Bytes -> Option<Record>, line: Bytes, end: nat): seq<Event> {
    if WellFormed(decode(line)) then [Event(end, decode(line).value)] else []
  }

  /** The frames named by the complete lines of `s`, which begins at offset `base`. */
  function Events(decode: Bytes -> Option<Record>, s: Bytes, base: nat): seq<Event>
    decreases |s|
  {
    var n := FirstNewline(s);
    if n < 0 then []
    else EventOf(decode, s[..n], base + n + 1) + Events(decode, s[n + 1..], base + n + 1)
  }

  /** What follows the last newline. */
  function Rest(s: Bytes): (r: Bytes)
    ensures |r| <= |s|
    decreases |s|
  {
    var n := FirstNewline(s);
    if n < 0 then s else Rest(s[n + 1..])
  }

  /** `s` without its first line, which may be the end of a line begun earlier. */
  function SkipLine(s: Bytes): (r: Bytes)
    ensures |r| <= |s|
  {
    var n := FirstNewline(s);
    if n < 0 then [] else s[n + 1..]
  }

  lemma {:induction false} FirstNewlineIs(s: Bytes, n: nat)
    requires n < |s| && s[n] == NEWLINE && NEWLINE !in s[..n]
    ensures FirstNewline(s) == n
    decreases n
  {
  }

  lemma {:induction false} FirstNewlineAppend(a: Bytes, b: Bytes)
    ensures FirstNewline(a) >= 0 ==> FirstNewline(a + b) == FirstNewline(a)
  {
    var n := FirstNewline(a);
    if n >= 0 {
      assert (a + b)[..n] == a[..n];
      FirstNewlineIs(a + b, n);
    }
  }

  /** Reading on: the events of a longer log are those of its beginning, followed by those of
      the unfinished line together with what was appended. */
  lemma {:induction false} EventsAppend(decode: Bytes -> Option<Record>, a: Bytes, b: Bytes, base: nat)
    ensures Events(decode, a + b, base) == Events(decode, a, base) + Events(decode, Rest(a) + b, base + |a| - |Rest(a)|)
    decreases |a|
  {
    hide *;
    var n := FirstNewline(a);
    if n < 0 {
      NoLine(decode, a, base);
      assert [] + Events(decode, a + b, base) == Events(decode, a + b, base);
    } else {
      var rest, mid := a[n + 1..], base + n + 1;
      FirstNewlineAppend(a, b);
      SplitAt(a, b, n);
      EventsFirst(decode, a + b, base);
      EventsFirst(decode, a, base);
      RestFirst(a);
      EventsAppend(decode, rest, b, mid);
      Regroup(EventOf(decode, a[..n], mid), Events(decode, rest, mid), Events(decode, Rest(a) + b, base + |a| - |Rest(a)|));
    }
  }

  lemma {:induction false} NoLine(decode: Bytes -> Option<Record>, s: Bytes, base: nat)
    requires FirstNewline(s) < 0
    ensures Events(decode, s, base) == [] && Rest(s) == s
  {
  }

  lemma {:induction false} Regroup(a: seq<Event>, b: seq<Event>, c: seq<Event>)
    ensures a + (b + c) == (a + b) + c
  {
  }

  lemma {:induction false} RestFirst(s: Bytes)
    requires FirstNewline(s) >= 0
    ensures Rest(s) == Rest(s[FirstNewline(s) + 1..])
  {
  }

  lemma {:induction false} SplitAt(a: Bytes, b: Bytes, n: nat)
    requires n < |a|
    ensures (a + b)[..n] == a[..n] && (a + b)[n + 1..] == a[n + 1..] + b
  {
  }

  /** The first complete line of `s` and what follows it. */
  lemma {:induction false} EventsFirst(decode: Bytes -> Option<Record>, s: Bytes, base: nat)
    requires FirstNewline(s) >= 0
    ensures var n := FirstNewline(s);
            Events(decode, s, base) == EventOf(decode, s[..n], base + n + 1) + Events(decode, s[n + 1..], base + n + 1)
  {
  }

  lemma {:induction false} NothingRests(a: Bytes)
    requires a == [] || a[|a| - 1] == NEWLINE
    ensures Rest(a) == []
    decreases |a|
  {
    var n := FirstNewline(a);
    assert a != [] ==> NEWLINE in a;
    if n >= 0 {
      NothingRests(a[n + 1..]);
    }
  }

  /** Every event ends at a line end. */
  lemma {:induction false} EventEnds(decode: Bytes -> Option<Record>, s: Bytes, base: nat, e: Event)
    requires e in Events(decode, s, base)
    ensures base < e.id <= base + |s| && s[e.id - base - 1] == NEWLINE && WellFormed(Some(e.record))
    decreases |s|
  {
    hide FirstNewline, EventOf;
    var n := FirstNewline(s);
    var mid, rest := base + n + 1, s[n + 1..];
    if e in EventOf(decode, s[..n], mid) {
      EventOfEnds(decode, s[..n], mid, e);
    } else {
      EventEnds(decode, rest, mid, e);
      assert rest[e.id - mid - 1] == s[e.id - base - 1];
    }
  }

  lemma {:induction false} EventOfEnds(decode: Bytes -> Option<Record>, line: Bytes, end: nat, e: Event)
    requires e in EventOf(decode, line, end)
    ensures e.id == end && WellFormed(Some(e.record))
  {
  }

  /** Ids increase. */
  lemma {:induction false} EventIds(decode: Bytes -> Option<Record>, s: Bytes, base: nat, i: nat, k: nat)
    requires i < k < |Events(decode, s, base)|
    ensures Events(decode, s, base)[i].id < Events(decode, s, base)[k].id
    decreases |s|
  {
    var n := FirstNewline(s);
    hide FirstNewline;
    var mid := base + n + 1;
    var head, tail := EventOf(decode, s[..n], mid), Events(decode, s[n + 1..], mid);
    assert Events(decode, s, base) == head + tail;
    if i < |head| {
      EventEnds(decode, s[n + 1..], mid, tail[k - |head|]);
    } else {
      EventIds(decode, s[n + 1..], mid, i - |head|, k - |head|);
    }
  }

  /** Resuming from the id of any event yields exactly the events behind it. */
  lemma {:induction false} ResumeYieldsTheRest(decode: Bytes -> Option<Record>, s: Bytes, base: nat, i: nat)
    requires i < |Events(decode, s, base)|
    ensures var id := Events(decode, s, base)[i].id;
            base < id <= base + |s| && Events(decode, s[id - base..], id) == Events(decode, s, base)[i + 1..]
  {
    hide *;
    var all := Events(decode, s, base);
    var id := all[i].id;
    EventEnds(decode, s, base, all[i]);
    var a, b := s[..id - base], s[id - base..];
    assert s == a + b && [] + b == b;
    EventsAppend(decode, a, b, base);
    NothingRests(a);
    var head, tail := Events(decode, a, base), Events(decode, b, id);
    CutAtId(all, head, tail, id, i) by {
      forall k | 0 <= k < |head| ensures head[k].id <= id {
        EventEnds(decode, a, base, head[k]);
      }
      forall k | 0 <= k < |tail| ensures tail[k].id > id {
        EventEnds(decode, b, id, tail[k]);
      }
      forall k | i < k < |all| ensures all[k].id > id {
        EventIds(decode, s, base, i, k);
      }
    }
  }

  lemma {:induction false} CutAtId(all: seq<Event>, head: seq<Event>, tail: seq<Event>, id: nat, i: nat)
    requires all == head + tail && i < |all| && all[i].id == id
    requires forall k :: 0 <= k < |head| ==> head[k].id <= id
    requires forall k :: 0 <= k < |tail| ==> tail[k].id > id
    requires forall k :: i < k < |all| ==> all[k].id > id
    ensures tail == all[i + 1..]
  {
    assert forall k :: 0 <= k < |head| ==> all[k] == head[k];
    assert forall k :: |head| <= k < |all| ==> all[k] == tail[k - |head|];
    var next := if i + 1 < |all| then all[i + 1] else all[i];
    assert |head| == i + 1;
  }

  // ---------------------------------------------------------------- reading logs

  function AtMost(a: nat, b: nat): nat {
    if a < b then a else b
  }

  /** At most `limit` bytes from `offset`; the limit must be positive. */
  function ReadChunk(content: Bytes, offset: nat, limit: int): Option<Bytes> {
    if limit <= 0 then None
    else if offset >= |content| then Some([])
    else Some(content[offset..offset + AtMost(limit, |content| - offset)])
  }

  function StreamOf(logs: Logs, stream: string): Bytes {
    if stream in logs.streams then logs.streams[stream] else []
  }

  /** A frame is read only if all of it can be. */
  function Payload(logs: Logs, r: Record): Option<Bytes>
    requires WellFormed(Some(r))
  {
    var data := ReadChunk(StreamOf(logs, r.stream), r.start, r.next - r.start);
    if data.Some? && r.start + |data.value| == r.next then data else None
  }

  /** Frames are available exactly when they are not empty and their stream has arrived. */
  lemma {:induction false} PayloadIff(logs: Logs, r: Record)
    requires WellFormed(Some(r))
    ensures Payload(logs, r)
            == if r.start < r.next <= |StreamOf(logs, r.stream)| then Some(StreamOf(logs, r.stream)[r.start..r.next]) else None
  {
  }

  ghost predicate Extends(a: Logs, b: Logs) {
    && a.order <= b.order
    && forall s :: StreamOf(a, s) <= StreamOf(b, s)
  }

  ghost predicate AppendOnly(logs: nat -> Logs) {
    forall s: nat, t: nat :: s <= t ==> Extends(logs(s), logs(t))
  }

  lemma {:induction false} PayloadPersists(a: Logs, b: Logs, r: Record)
    requires Extends(a, b) && WellFormed(Some(r)) && Payload(a, r).Some?
    ensures Payload(b, r) == Payload(a, r)
  {
    PayloadIff(a, r);
    PayloadIff(b, r);
    var x, y := StreamOf(a, r.stream), StreamOf(b, r.stream);
    assert x <= y;
    assert x[r.start..r.next] == y[r.start..r.next];
  }

  // ---------------------------------------------------------------- the tail

  datatype Query = NoQuery | FromTail | From(offset: nat)

  function StartOffset(size: nat, query: Query, cursor: Option<nat>): nat {
    var wanted :=
      if cursor.Some? then cursor.value
      else if query.From? then query.offset
      else if size < TAIL then 0 else size - TAIL;
    AtMost(wanted, size)
  }

  function StartSkips(size: nat, query: Query, cursor: Option<nat>): bool {
    StartOffset(size, query, cursor) > 0 && cursor.None? && !query.From?
  }

  /** The events a tail that began at `start` is to send once it has read `s`. */
  function Wanted(decode: Bytes -> Option<Record>, s: Bytes, start: nat, skip: bool): seq<Event> {
    if skip then Events(decode, SkipLine(s), start + |s| - |SkipLine(s)|) else Events(decode, s, start)
  }

  /** What has been sent is what the first events name. */
  ghost predicate Shows(sent: seq<Frame>, events: seq<Event>, logs: Logs) {
    && |sent| <= |events|
    && forall i :: 0 <= i < |sent| ==>
         sent[i].event == events[i] && WellFormed(Some(events[i].record)) && Payload(logs, events[i].record) == Some(sent[i].data)
  }

  /** The tail stopped at the first event whose frame could not be read. */
  ghost predicate StoppedAt(sent: seq<Frame>, events: seq<Event>, logs: Logs) {
    && |sent| < |events|
    && WellFormed(Some(events[|sent|].record)) && Payload(logs, events[|sent|].record).None?
  }

  ghost predicate EndsLine(s: Bytes) {
    s == [] || s[|s| - 1] == NEWLINE
  }

  /** State of the line splitter after reading `s`: whole lines are behind it, their events are
      `events`, and the unfinished line is pending. */
  ghost predicate Splits(decode: Bytes -> Option<Record>, s: Bytes, start: nat, skip: bool,
                         pending: Bytes, pendingStart: nat, skipPartial: bool, events: seq<Event>) {
    && start <= pendingStart && pendingStart + |pending| == start + |s|
    && pending == s[pendingStart - start..]
    && EndsLine(s[..pendingStart - start])
    && skipPartial == (skip && pendingStart == start)
    && events == Wanted(decode, s[..pendingStart - start], start, skip)
  }

  lemma {:induction false} OneLine(decode: Bytes -> Option<Record>, line: Bytes, base: nat)
    requires NEWLINE !in line
    ensures FirstNewline(line + [NEWLINE]) == |line|
    ensures Events(decode, line + [NEWLINE], base) == EventOf(decode, line, base + |line| + 1)
    ensures SkipLine(line + [NEWLINE]) == []
  {
  }

  lemma {:induction false} HasLine(s: Bytes)
    requires EndsLine(s) && s != []
    ensures FirstNewline(s) >= 0
  {
  }

  lemma {:induction false} SkipMore(read: Bytes, more: Bytes)
    requires EndsLine(read) && read != []
    ensures SkipLine(read + more) == SkipLine(read) + more && Rest(SkipLine(read)) == []
  {
    hide FirstNewline, EndsLine, Rest;
    HasLine(read);
    FirstNewlineAppend(read, more);
    SplitAt(read, more, FirstNewline(read));
    NothingRests(read) by {
      EndsLineIs(read);
    }
    RestFirst(read);
  }

  lemma {:induction false} EndsLineIs(s: Bytes)
    requires EndsLine(s)
    ensures s == [] || s[|s| - 1] == NEWLINE
  {
  }

  lemma {:induction false} WantedMore(decode: Bytes -> Option<Record>, read: Bytes, more: Bytes, start: nat, skip: bool)
    requires EndsLine(read) && (skip ==> read != [])
    ensures Wanted(decode, read + more, start, skip) == Wanted(decode, read, start, skip) + Events(decode, more, start + |read|)
  {
    hide Events, Rest, SkipLine, FirstNewline;
    assert [] + more == more;
    if skip {
      SkipMore(read, more);
      EventsAppend(decode, SkipLine(read), more, start + |read| - |SkipLine(read)|);
    } else {
      NothingRests(read);
      EventsAppend(decode, read, more, start);
    }
  }

  /** Cutting one line off. */
  lemma {:induction false} SplitLine(decode: Bytes -> Option<Record>, s: Bytes, start: nat, skip: bool,
                  pending: Bytes, pendingStart: nat, skipPartial: bool, events: seq<Event>)
    requires Splits(decode, s, start, skip, pending, pendingStart, skipPartial, events)
    requires FirstNewline(pending) >= 0
    ensures var n := FirstNewline(pending);
            var more := if skipPartial then [] else EventOf(decode, pending[..n], pendingStart + n + 1);
            Splits(decode, s, start, skip, pending[n + 1..], pendingStart + n + 1, false, events + more)
  {
    hide Events, Rest, SkipLine, FirstNewline, EventOf, Wanted, EndsLine;
    var n := FirstNewline(pending);
    var read := s[..pendingStart - start];
    var more := pending[..n] + [NEWLINE];
    LineCut(s, pendingStart - start, pending, n);
    OneLine(decode, pending[..n], pendingStart);
    if skipPartial {
      assert read == [] && read + more == more;
      SkippedLine(decode, more, start);
    } else {
      WantedMore(decode, read, more, start, skip);
    }
  }

  lemma {:induction false} LineCut(s: Bytes, k: nat, pending: Bytes, n: nat)
    requires k <= |s| && pending == s[k..] && n < |pending| && pending[n] == NEWLINE
    ensures s[..k + n + 1] == s[..k] + (pending[..n] + [NEWLINE])
    ensures pending[n + 1..] == s[k + n + 1..] && EndsLine(s[..k + n + 1])
  {
  }

  lemma {:induction false} SkippedLine(decode: Bytes -> Option<Record>, line: Bytes, start: nat)
    requires SkipLine(line) == []
    ensures Wanted(decode, line, start, true) == [] && Wanted(decode, [], start, true) == []
  {
  }

  /** With no complete line pending, all events have been met; reading on appends to the pending bytes. */
  lemma {:induction false} SplitMore(decode: Bytes -> Option<Record>, s: Bytes, data: Bytes, start: nat, skip: bool,
                  pending: Bytes, pendingStart: nat, skipPartial: bool, events: seq<Event>)
    requires Splits(decode, s, start, skip, pending, pendingStart, skipPartial, events)
    ensures Splits(decode, s + data, start, skip, pending + data, pendingStart, skipPartial, events)
    ensures NEWLINE !in pending ==> Wanted(decode, s, start, skip) == events
  {
    hide Events, Wanted, FirstNewline, EndsLine;
    var read := s[..pendingStart - start];
    assert (s + data)[..pendingStart - start] == read;
    if NEWLINE !in pending {
      assert s == read + pending;
      NothingPending(decode, read, pending, start, skip);
    }
  }

  lemma {:induction false} NothingPending(decode: Bytes -> Option<Record>, read: Bytes, pending: Bytes, start: nat, skip: bool)
    requires EndsLine(read) && NEWLINE !in pending
    ensures Wanted(decode, read + pending, start, skip) == Wanted(decode, read, start, skip)
  {
    hide Rest, EndsLine;
    assert FirstNewline(pending) < 0;
    if skip && read == [] {
      assert read + pending == pending && SkipLine(pending) == [] && SkipLine(read) == [];
    } else {
      hide Wanted;
      WantedMore(decode, read, pending, start, skip);
    }
  }

  lemma {:induction false} AllSplit(decode: Bytes -> Option<Record>, s: Bytes, start: nat, skip: bool,
                 pending: Bytes, pendingStart: nat, skipPartial: bool, events: seq<Event>)
    requires Splits(decode, s, start, skip, pending, pendingStart, skipPartial, events)
    requires FirstNewline(pending) < 0
    ensures NEWLINE !in pending && Wanted(decode, s, start, skip) == events
  {
    hide Wanted;
    SplitMore(decode, s, [], start, skip, pending, pendingStart, skipPartial, events);
  }

  // ---------------------------------------------------------------- the program

  lemma {:induction false} ShowsLater(sent: seq<Frame>, events: seq<Event>, more: seq<Event>, a: Logs, b: Logs)
    requires Shows(sent, events, a) && Extends(a, b)
    ensures Shows(sent, events + more, b)
  {
    forall i | 0 <= i < |sent| ensures Payload(b, events[i].record) == Some(sent[i].data) {
      PayloadPersists(a, b, events[i].record);
    }
  }

  lemma {:induction false} ReadStays(a: Logs, b: Logs, start: nat, after: nat)
    requires Extends(a, b) && start <= after <= |a.order|
    ensures after <= |b.order| && b.order[start..after] == a.order[start..after]
  {
  }

  /** One chunk of the order log. */
  function ReadNext(order: Bytes, after: nat): (data: Bytes)
    requires after <= |order|
    ensures after + |data| == AtMost(after + CHUNK, |order|) && data == order[after..after + |data|]
  {
    ReadChunk(order, after, CHUNK).value
  }

  class Tail {
    const start: nat
    const skip: bool
    var after: nat
    var pending: Bytes
    var pendingStart: nat
    var skipPartial: bool
    var stopped: bool
    var sent: seq<Frame>

    /** Where the tail begins, clamped to the present size of the order log. */
    constructor (size: nat, query: Query, cursor: Option<nat>)
      ensures start == StartOffset(size, query, cursor) && skip == StartSkips(size, query, cursor)
      ensures after == start && pending == [] && pendingStart == start && skipPartial == skip && !stopped && sent == []
    {
      var offset := if size < TAIL then 0 else size - TAIL;
      if query.From? {
        offset := query.offset;
      }
      if cursor.Some? {
        offset := cursor.value;
      }
      if offset > size {
        offset := size;
      }
      start, after, pending, pendingStart := offset, offset, [], offset;
      skip := offset > 0 && cursor.None? && !query.From?;
      skipPartial := offset > 0 && cursor.None? && !query.From?;
      stopped, sent := false, [];
    }

    /** What has been read of the order log so far. */
    ghost function Read(logs: Logs): Bytes
      requires start <= after <= |logs.order|
      reads this`after
    {
      logs.order[start..after]
    }

    /** Everything sent is right; unless stopped, nothing complete has been left out. */
    ghost predicate Valid(decode: Bytes -> Option<Record>, logs: Logs)
      reads this
    {
      && start <= after <= |logs.order|
      && Shows(sent, Wanted(decode, Read(logs), start, skip), logs)
      && (!stopped ==>
            && |sent| == |Wanted(decode, Read(logs), start, skip)|
            && NEWLINE !in pending
            && Splits(decode, Read(logs), start, skip, pending, pendingStart, skipPartial, Wanted(decode, Read(logs), start, skip)))
    }

    /** Sends the frame an event names, or stops. */
    method Send(logs: Logs, event: Event) returns (ok: bool)
      requires WellFormed(Some(event.record))
      modifies this`sent, this`stopped
      ensures ok == Payload(logs, event.record).Some?
      ensures ok ==> sent == old(sent) + [Frame(event, Payload(logs, event.record).value)] && stopped == old(stopped)
      ensures !ok ==> sent == old(sent) && stopped
    {
      var r := event.record;
      var data := ReadChunk(StreamOf(logs, r.stream), r.start, r.next - r.start);
      if data.None? || r.start + |data.value| != r.next {
        stopped := true;
        return false;
      }
      sent := sent + [Frame(event, data.value)];
      return true;
    }

    /** Handles one complete line: sends the frame it names, if it names one. */
    method HandleLine(decode: Bytes -> Option<Record>, logs: nat -> Logs, tick: nat, line: Bytes, end: nat, skipped: bool,
                      ghost events: seq<Event>)
        returns (tick': nat, ok: bool, ghost more: seq<Event>)
      requires AppendOnly(logs) && !stopped && Shows(sent, events, logs(tick)) && |sent| == |events|
      modifies this`sent, this`stopped
      ensures more == if skipped then [] else EventOf(decode, line, end)
      ensures tick <= tick' && Shows(sent, events + more, logs(tick')) && ok == !stopped
      ensures ok ==> |sent| == |events + more|
      ensures !ok ==> StoppedAt(sent, events + more, logs(tick'))
    {
      hide Payload, Extends, Shows, StoppedAt;
      tick', ok, more := tick, true, [];
      if !skipped && WellFormed(decode(line)) {
        var event := Event(end, decode(line).value);
        more := [event];
        tick' := tick + 1;
        ShowsLater(sent, events, [], logs(tick), logs(tick'));
        assert events + [] == events;
        ghost var before := sent;
        ok := Send(logs(tick'), event);
        SentOne(before, events, event, sent, logs(tick'), ok);
      } else {
        assert events + [] == events;
      }
    }

    /** Handles the complete lines pending.  Each frame is read when its line is met. */
    method Split(decode: Bytes -> Option<Record>, logs: nat -> Logs, tick: nat, ghost s: Bytes, ghost before: seq<Event>)
        returns (tick': nat, ghost events: seq<Event>)
      requires AppendOnly(logs) && !stopped
      requires Splits(decode, s, start, skip, pending, pendingStart, skipPartial, before)
      requires Shows(sent, before, logs(tick)) && |sent| == |before|
      modifies this`pending, this`pendingStart, this`skipPartial, this`sent, this`stopped
      ensures tick <= tick'
      ensures events <= Wanted(decode, s, start, skip) && Shows(sent, events, logs(tick'))
      ensures stopped ==> StoppedAt(sent, events, logs(tick'))
      ensures !stopped ==>
                && |sent| == |events| && NEWLINE !in pending && events == Wanted(decode, s, start, skip)
                && Splits(decode, s, start, skip, pending, pendingStart, skipPartial, events)
    {
      hide Splits, Wanted, EventOf, Shows, StoppedAt, AppendOnly, FirstNewline;
      tick' := tick;
      events := before;
      var newline := FirstNewline(pending);
      while newline >= 0
        invariant tick <= tick' && !stopped && newline == FirstNewline(pending)
        invariant Splits(decode, s, start, skip, pending, pendingStart, skipPartial, events)
        invariant Shows(sent, events, logs(tick')) && |sent| == |events|
        decreases |pending|
      {
        var line, end := pending[..newline], pendingStart + newline + 1;
        SplitLine(decode, s, start, skip, pending, pendingStart, skipPartial, events);
        var skipped := skipPartial;
        pending, pendingStart, skipPartial := pending[newline + 1..], end, false;
        var ok;
        ghost var more;
        tick', ok, more := HandleLine(decode, logs, tick', line, end, skipped, events);
        events := events + more;
        if !ok {
          SplitsPrefix(decode, s, start, skip, pending, pendingStart, skipPartial, events);
          return;
        }
        newline := FirstNewline(pending);
      }
      AllSplit(decode, s, start, skip, pending, pendingStart, skipPartial, events);
    }

    /** One read of the order log, and what follows from it. */
    method Poll(decode: Bytes -> Option<Record>, logs: nat -> Logs, tick: nat) returns (tick': nat)
      requires AppendOnly(logs) && !stopped && Valid(decode, logs(tick))
      modifies this
      ensures tick < tick' && Valid(decode, logs(tick'))
      ensures after == AtMost(old(after) + CHUNK, |logs(tick + 1).order|)
      ensures stopped ==> StoppedAt(sent, Wanted(decode, Read(logs(tick')), start, skip), logs(tick'))
    {
      hide Splits, Wanted, Shows, Payload, Events, FirstNewline, StoppedAt, Extends, ReadNext;
      tick' := tick + 1;
      ghost var s, events := Read(logs(tick)), Wanted(decode, Read(logs(tick)), start, skip);
      ghost var full := logs(tick').order;
      ReadStays(logs(tick), logs(tick'), start, after);
      assert events + [] == events;
      ShowsLater(sent, events, [], logs(tick), logs(tick'));
      var data := ReadNext(logs(tick').order, after);
      SplitMore(decode, s, data, start, skip, pending, pendingStart, skipPartial, events);
      pending := pending + data;
      after := after + |data|;
      assert full[start..after] == s + data;
      tick', events := Split(decode, logs, tick + 1, s + data, events);
      ReadStays(logs(tick + 1), logs(tick'), start, after);
      ShowsMore(sent, events, Wanted(decode, s + data, start, skip), logs(tick'));
    }

    /** Follows the log through `n` reads, or until a frame cannot be read. */
    method Follow(decode: Bytes -> Option<Record>, logs: nat -> Logs, tick: nat, n: nat) returns (tick': nat)
      requires AppendOnly(logs) && !stopped && Valid(decode, logs(tick))
      modifies this
      ensures tick <= tick' && Valid(decode, logs(tick'))
      ensures stopped ==> StoppedAt(sent, Wanted(decode, Read(logs(tick')), start, skip), logs(tick'))
    {
      tick' := tick;
      for i := 0 to n
        invariant tick <= tick' && !stopped && Valid(decode, logs(tick'))
      {
        tick' := Poll(decode, logs, tick');
        if stopped {
          return;
        }
      }
    }
  }

  lemma {:induction false} SentOne(before: seq<Frame>, events: seq<Event>, event: Event, after: seq<Frame>, logs: Logs, ok: bool)
    requires Shows(before, events, logs) && |before| == |events| && WellFormed(Some(event.record))
    requires ok == Payload(logs, event.record).Some?
    requires after == if ok then before + [Frame(event, Payload(logs, event.record).value)] else before
    ensures Shows(after, events + [event], logs)
    ensures ok ==> |after| == |events + [event]|
    ensures !ok ==> StoppedAt(after, events + [event], logs)
  {
  }

  lemma {:induction false} ShowsMore(sent: seq<Frame>, events: seq<Event>, all: seq<Event>, logs: Logs)
    requires Shows(sent, events, logs) && events <= all
    ensures Shows(sent, all, logs)
    ensures StoppedAt(sent, events, logs) ==> StoppedAt(sent, all, logs)
  {
  }

  /** Events of whole lines read are the first events of all that was read. */
  lemma {:induction false} SplitsPrefix(decode: Bytes -> Option<Record>, s: Bytes, start: nat, skip: bool,
                     pending: Bytes, pendingStart: nat, skipPartial: bool, events: seq<Event>)
    requires Splits(decode, s, start, skip, pending, pendingStart, skipPartial, events)
    ensures events <= Wanted(decode, s, start, skip)
  {
    var read := s[..pendingStart - start];
    assert s == read + pending;
    if skipPartial {
      assert read == [];
    } else {
      WantedMore(decode, read, pending, start, skip);
    }
  }

  // ---------------------------------------------------------------- reconnecting

  lemma {:induction false} SkipLineIs(s: Bytes)
    ensures SkipLine(s) == s[|s| - |SkipLine(s)|..]
  {
  }

  /** A client that reconnects with the id of any frame it was sent gets exactly the frames
      behind it, however the first connection began. */
  lemma {:induction false} ReconnectYieldsTheRest(decode: Bytes -> Option<Record>, s: Bytes, start: nat, skip: bool, i: nat,
                                                  size: nat, query: Query)
    requires i < |Wanted(decode, s, start, skip)| && start + |s| <= size
    ensures var id := Wanted(decode, s, start, skip)[i].id;
            && start < id <= start + |s|
            && StartOffset(size, query, Some(id)) == id && !StartSkips(size, query, Some(id))
            && Wanted(decode, s[id - start..], id, false) == Wanted(decode, s, start, skip)[i + 1..]
  {
    hide Events, SkipLine;
    var id := Wanted(decode, s, start, skip)[i].id;
    if skip {
      var rest := SkipLine(s);
      var base := start + |s| - |rest|;
      SkipLineIs(s);
      ResumeYieldsTheRest(decode, rest, base, i);
      assert rest[id - base..] == s[id - start..];
    } else {
      ResumeYieldsTheRest(decode, s, start, i);
    }
  }

  /** A tail stops only at an empty frame, or at one whose stream has not arrived. */
  lemma {:induction false} StopsOnlyForMissingFrames(sent: seq<Frame>, events: seq<Event>, logs: Logs)
    ensures StoppedAt(sent, events, logs) <==>
              && |sent| < |events| && WellFormed(Some(events[|sent|].record))
              && (var r := events[|sent|].record; r.start == r.next || r.next > |StreamOf(logs, r.stream)|)
  {
  }

  /** An event for no bytes is never sent, nor is any event behind it. */
  lemma {:induction false} EmptyFrameStops(sent: seq<Frame>, events: seq<Event>, logs: Logs, i: nat)
    requires i < |events| && events[i].record.start == events[i].record.next && Shows(sent, events, logs)
    ensures |sent| <= i
  {
    hide Payload;
    if i < |sent| {
      PayloadIff(logs, events[i].record);
    }
  }

  lemma {:induction false} WantedGrows(decode: Bytes -> Option<Record>, s: Bytes, more: Bytes, start: nat, skip: bool)
    ensures Wanted(decode, s, start, skip) <= Wanted(decode, s + more, start, skip)
  {
    hide Events, FirstNewline, Rest;
    FirstNewlineAppend(s, more);
    EmptyEvents(decode, start + |s|);
    if !skip {
      EventsAppend(decode, s, more, start);
    } else if FirstNewline(s) >= 0 {
      var n := FirstNewline(s);
      assert (s + more)[n + 1..] == s[n + 1..] + more;
      EventsAppend(decode, SkipLine(s), more, start + n + 1);
    }
  }

  /** Such an event stops the tail for good: however the logs grow, neither the connection that
      meets it, nor one that resumes at the id of an earlier event, ever sends anything from it on. */
  lemma {:induction false} EmptyFrameStopsForGood(decode: Bytes -> Option<Record>, s: Bytes, more: Bytes, start: nat, skip: bool, i: nat,
                                                  k: nat, size: nat, query: Query, logs: Logs, sent: seq<Frame>)
    requires start + |s| + |more| <= size && k < i < |Wanted(decode, s, start, skip)|
    requires Wanted(decode, s, start, skip)[i].record.start == Wanted(decode, s, start, skip)[i].record.next
    ensures Shows(sent, Wanted(decode, s + more, start, skip), logs) ==> |sent| <= i
    ensures var id := Wanted(decode, s, start, skip)[k].id;
            && start < id <= start + |s| && StartOffset(size, query, Some(id)) == id && !StartSkips(size, query, Some(id))
            && (Shows(sent, Wanted(decode, (s + more)[id - start..], id, false), logs) ==> |sent| < i - k)
  {
    hide Wanted, Shows, StartOffset, StartSkips;
    var all := Wanted(decode, s + more, start, skip);
    WantedGrows(decode, s, more, start, skip);
    assert all[i] == Wanted(decode, s, start, skip)[i] && all[k] == Wanted(decode, s, start, skip)[k];
    ReconnectYieldsTheRest(decode, s, start, skip, k, size, query);
    ReconnectYieldsTheRest(decode, s + more, start, skip, k, size, query);
    if Shows(sent, all, logs) {
      EmptyFrameStops(sent, all, logs, i);
    }
    var rest := all[k + 1..];
    assert rest[i - k - 1] == all[i];
    if Shows(sent, rest, logs) {
      EmptyFrameStops(sent, rest, logs, i - k - 1);
    }
  }

  // ---------------------------------------------------------------- the agent writes the logs

  datatype Write = Write(stream: string, data: Bytes)

  /** The agent does not write empty frames either, but nothing here relies on that. */
  predicate WriteOk(w: Write) {
    w.stream == "stdout" || w.stream == "stderr"
  }

  ghost predicate WritesOk(ws: seq<Write>) {
    forall i :: 0 <= i < |ws| ==> WriteOk(ws[i])
  }

  /** What the encoding of records is relied on for. */
  ghost predicate Codec(encode: Record -> Bytes, decode: Bytes -> Option<Record>) {
    forall r :: decode(encode(r)) == Some(r) && NEWLINE !in encode(r)
  }

  function RecordFor(logs: Logs, w: Write, sequence: int): Record {
    var start := |StreamOf(logs, w.stream)|;
    Record(sequence, w.stream, start, start + |w.data|)
  }

  function Appended(encode: Record -> Bytes, logs: Logs, w: Write, sequence: int): Logs {
    Logs(logs.order + (encode(RecordFor(logs, w, sequence)) + [NEWLINE]),
         logs.streams[w.stream := StreamOf(logs, w.stream) + w.data])
  }

  function Produced(encode: Record -> Bytes, ws: seq<Write>): Logs {
    if ws == [] then Logs([], map[])
    else Appended(encode, Produced(encode, ws[..|ws| - 1]), ws[|ws| - 1], |ws|)
  }

  /** The agent's end: the frame goes to its stream, then its record to the order log. */
  class Writer {
    var order: Bytes
    var streams: map<string, Bytes>
    var sequence: int

    ghost function Contents(): Logs
      reads this
    {
      Logs(order, streams)
    }

    constructor ()
      ensures Contents() == Logs([], map[]) && sequence == 0
    {
      order, streams, sequence := [], map[], 0;
    }

    method AppendOrdered(encode: Record -> Bytes, stream: string, data: Bytes)
      modifies this
      ensures sequence == old(sequence) + 1
      ensures Contents() == Appended(encode, old(Contents()), Write(stream, data), sequence)
    {
      var file := if stream in streams then streams[stream] else [];
      var start := |file|;
      streams := streams[stream := file + data];
      sequence := sequence + 1;
      order := order + (encode(Record(sequence, stream, start, start + |data|)) + [NEWLINE]);
    }

    method WriteAll(encode: Record -> Bytes, ws: seq<Write>)
      requires Contents() == Produced(encode, []) && sequence == 0
      modifies this
      ensures Contents() == Produced(encode, ws)
    {
      for i := 0 to |ws|
        invariant sequence == i && Contents() == Produced(encode, ws[..i])
      {
        assert ws[..i + 1][..i] == ws[..i];
        AppendOrdered(encode, ws[i].stream, ws[i].data);
      }
      assert ws[..|ws|] == ws;
    }
  }

  lemma {:induction false} AppendedExtends(encode: Record -> Bytes, logs: Logs, w: Write, sequence: int)
    ensures Extends(logs, Appended(encode, logs, w, sequence))
  {
  }

  /** The events of a produced order log are the writes, and each names the bytes written, or is
      empty if nothing was. */
  ghost predicate Names(events: seq<Event>, ws: seq<Write>, logs: Logs) {
    && |events| == |ws|
    && forall i :: 0 <= i < |ws| ==>
         && WellFormed(Some(events[i].record)) && events[i].record.stream == ws[i].stream && events[i].record.sequence == i + 1
         && (if ws[i].data == [] then events[i].record.start == events[i].record.next
             else Payload(logs, events[i].record) == Some(ws[i].data))
  }

  lemma {:induction false} ProducedNames(encode: Record -> Bytes, decode: Bytes -> Option<Record>, ws: seq<Write>)
    requires Codec(encode, decode) && WritesOk(ws)
    ensures Names(Events(decode, Produced(encode, ws).order, 0), ws, Produced(encode, ws))
    ensures EndsLine(Produced(encode, ws).order)
    decreases |ws|
  {
    hide *;
    if ws == [] {
      NothingProduced(encode, decode);
    } else {
      var init, w := ws[..|ws| - 1], ws[|ws| - 1];
      ProducedLast(encode, ws);
      ProducedNames(encode, decode, init);
      AppendNames(encode, decode, init, w, Produced(encode, init));
      assert ws == init + [w];
    }
  }

  lemma {:induction false} NothingProduced(encode: Record -> Bytes, decode: Bytes -> Option<Record>)
    ensures Names(Events(decode, Produced(encode, []).order, 0), [], Produced(encode, [])) && EndsLine(Produced(encode, []).order)
  {
  }

  lemma {:induction false} ProducedLast(encode: Record -> Bytes, ws: seq<Write>)
    requires ws != [] && WritesOk(ws)
    ensures WritesOk(ws[..|ws| - 1]) && WriteOk(ws[|ws| - 1])
    ensures Produced(encode, ws) == Appended(encode, Produced(encode, ws[..|ws| - 1]), ws[|ws| - 1], |ws|)
  {
    hide Appended;
  }

  lemma {:induction false} AppendNames(encode: Record -> Bytes, decode: Bytes -> Option<Record>, ws: seq<Write>, w: Write, logs: Logs)
    requires Codec(encode, decode) && WriteOk(w)
    requires Names(Events(decode, logs.order, 0), ws, logs) && EndsLine(logs.order)
    ensures var after := Appended(encode, logs, w, |ws| + 1);
            Names(Events(decode, after.order, 0), ws + [w], after) && EndsLine(after.order)
  {
    hide Events, Rest, FirstNewline, Payload, EndsLine, Extends;
    var after := Appended(encode, logs, w, |ws| + 1);
    var r := RecordFor(logs, w, |ws| + 1);
    var line := encode(r);
    WantedMore(decode, logs.order, line + [NEWLINE], 0, false);
    OneLine(decode, line, |logs.order|);
    AppendedExtends(encode, logs, w, |ws| + 1);
    var before := Events(decode, logs.order, 0);
    forall i | 0 <= i < |ws| && ws[i].data != [] ensures Payload(after, before[i].record) == Some(ws[i].data) {
      PayloadPersists(logs, after, before[i].record);
    }
    PayloadIff(after, r);
    assert StreamOf(after, w.stream)[r.start..r.next] == w.data;
    EndsWithLine(logs.order, line);
  }

  lemma {:induction false} EndsWithLine(a: Bytes, line: Bytes)
    ensures EndsLine(a + (line + [NEWLINE]))
  {
  }

  lemma {:induction false} EventsPrefix(decode: Bytes -> Option<Record>, a: Bytes, b: Bytes, base: nat)
    requires a <= b
    ensures Events(decode, a, base) <= Events(decode, b, base)
  {
    hide Events;
    assert b == a + b[|a|..];
    EventsAppend(decode, a, b[|a|..], base);
  }

  /** The tail sees lines whole: it begins at the start of a line, or skips the rest of one. */
  ghost predicate SeesLines(order: Bytes, start: nat, skip: bool)
    requires start <= |order|
  {
    skip || EndsLine(order[..start])
  }

  /** What a tail is to send is a run of consecutive events of the whole log. */
  lemma {:induction false} WantedIsRun(decode: Bytes -> Option<Record>, order: Bytes, start: nat, skip: bool) returns (m: nat)
    requires start <= |order| && SeesLines(order, start, skip)
    ensures var all, wanted := Events(decode, order, 0), Wanted(decode, order[start..], start, skip);
            m + |wanted| <= |all| && wanted == all[m..m + |wanted|]
    ensures m == |Events(decode, order[..FirstLineAt(order, start, skip)], 0)|
  {
    hide Events, Rest, FirstNewline;
    var s := order[start..];
    if skip && FirstNewline(s) < 0 {
      m := |Events(decode, order, 0)|;
      assert order[..|order|] == order;
      EmptyEvents(decode, start + |s|);
    } else {
      var cut := if skip then start + FirstNewline(s) + 1 else start;
      CutAtLine(order, start, skip, cut);
      hide EndsLine, SkipLine, SeesLines;
      m := RunFrom(decode, order, cut);
      assert skip ==> SkipLine(s) == order[cut..];
    }
  }

  /** Where the first line begins that the tail sees whole. */
  function FirstLineAt(order: Bytes, start: nat, skip: bool): (cut: nat)
    requires start <= |order|
    ensures start <= cut <= |order|
  {
    if skip then |order| - |SkipLine(order[start..])| else start
  }

  lemma {:induction false} CutAtLine(order: Bytes, start: nat, skip: bool, cut: nat)
    requires start <= |order| && SeesLines(order, start, skip)
    requires if skip then FirstNewline(order[start..]) >= 0 && cut == start + FirstNewline(order[start..]) + 1 else cut == start
    ensures cut <= |order| && EndsLine(order[..cut]) && (skip ==> SkipLine(order[start..]) == order[cut..])
  {
    hide FirstNewline;
    if skip {
      assert order[..cut][cut - 1] == order[start..][cut - 1 - start] == NEWLINE;
    }
  }

  lemma {:induction false} RunFrom(decode: Bytes -> Option<Record>, order: Bytes, cut: nat) returns (m: nat)
    requires cut <= |order| && EndsLine(order[..cut])
    ensures m == |Events(decode, order[..cut], 0)|
    ensures m <= |Events(decode, order, 0)| && Events(decode, order, 0)[m..] == Events(decode, order[cut..], cut)
  {
    hide Events, Rest, FirstNewline;
    var a, b := order[..cut], order[cut..];
    assert order == a + b && [] + b == b;
    NothingRests(a);
    EventsAppend(decode, a, b, 0);
    m := |Events(decode, a, 0)|;
  }

  lemma {:induction false} EmptyEvents(decode: Bytes -> Option<Record>, base: nat)
    ensures Events(decode, [], base) == []
  {
  }

  /** End to end: what a tail sends from the server's copy of the logs, however much of them has
      arrived and wherever it begins, is a run of consecutive writes of the agent, in the order
      in which it made them, and none of them empty.  The run continues just behind the writes
      recorded before the first line that the tail sees whole. */
  lemma {:induction false} TailShowsWrites(encode: Record -> Bytes, decode: Bytes -> Option<Record>, ws: seq<Write>, logs: Logs,
                                          start: nat, skip: bool, after: nat, sent: seq<Frame>)
      returns (m: nat)
    requires Codec(encode, decode) && WritesOk(ws) && Extends(logs, Produced(encode, ws))
    requires start <= after <= |logs.order| && SeesLines(logs.order, start, skip)
    requires Shows(sent, Wanted(decode, logs.order[start..after], start, skip), logs)
    ensures m + |sent| <= |ws|
    ensures forall i :: 0 <= i < |sent| ==> sent[i].event.record.stream == ws[m + i].stream && sent[i].data == ws[m + i].data != []
    ensures m == |Events(decode, logs.order[..FirstLineAt(logs.order[..after], start, skip)], 0)|
  {
    hide *;
    var full := Produced(encode, ws);
    ProducedNames(encode, decode, ws);
    m := ReadIsRun(decode, logs.order, start, skip, after);
    ReadIsPrefix(logs, full, after);
    EventsPrefix(decode, logs.order[..after], full.order, 0);
    ShowsNamed(sent, Wanted(decode, logs.order[start..after], start, skip), Events(decode, logs.order[..after], 0),
               Events(decode, full.order, 0), m, ws, logs, full);
  }

  /** Were the agent to write an empty frame, nobody who follows the log from its beginning would
      ever get it or anything behind it. */
  lemma {:induction false} EmptyWriteHides(encode: Record -> Bytes, decode: Bytes -> Option<Record>, ws: seq<Write>, i: nat,
                                           sent: seq<Frame>)
    requires Codec(encode, decode) && WritesOk(ws) && i < |ws| && ws[i].data == []
    requires Shows(sent, Events(decode, Produced(encode, ws).order, 0), Produced(encode, ws))
    ensures |sent| <= i
  {
    ProducedNames(encode, decode, ws);
    hide Events, Produced, Payload, Codec, Shows;
    EmptyFrameStops(sent, Events(decode, Produced(encode, ws).order, 0), Produced(encode, ws), i);
  }

  lemma {:induction false} ReadIsPrefix(logs: Logs, full: Logs, after: nat)
    requires Extends(logs, full) && after <= |logs.order|
    ensures logs.order[..after] <= full.order
  {
  }

  /** A run of events that name the writes shows the writes. */
  lemma {:induction false} ShowsNamed(sent: seq<Frame>, wanted: seq<Event>, some: seq<Event>, all: seq<Event>, m: nat, ws: seq<Write>,
                                      logs: Logs, full: Logs)
    requires Shows(sent, wanted, logs) && Names(all, ws, full) && Extends(logs, full) && some <= all
    requires m + |wanted| <= |some| && wanted == some[m..m + |wanted|]
    ensures m + |sent| <= |ws|
    ensures forall i :: 0 <= i < |sent| ==> sent[i].event.record.stream == ws[m + i].stream && sent[i].data == ws[m + i].data != []
  {
    hide Payload;
    forall i | 0 <= i < |sent|
      ensures sent[i].event.record.stream == ws[m + i].stream && sent[i].data == ws[m + i].data != []
    {
      assert wanted[i] == some[m + i] == all[m + i];
      PayloadIff(logs, wanted[i].record);
      PayloadPersists(logs, full, wanted[i].record);
    }
  }

  lemma {:induction false} ReadIsRun(decode: Bytes -> Option<Record>, order: Bytes, start: nat, skip: bool, after: nat) returns (m: nat)
    requires start <= after <= |order| && SeesLines(order, start, skip)
    ensures var all, wanted := Events(decode, order[..after], 0), Wanted(decode, order[start..after], start, skip);
            m + |wanted| <= |all| && wanted == all[m..m + |wanted|]
    ensures m == |Events(decode, order[..FirstLineAt(order[..after], start, skip)], 0)|
  {
    hide Events, Wanted, FirstLineAt;
    var cut := FirstLineAt(order[..after], start, skip);
    assert order[..after][start..] == order[start..after] && order[..after][..cut] == order[..cut];
    m := WantedIsRun(decode, order[..after], start, skip);
  }

  /** The line at `cut` is the first to begin in the last 256 KiB, behind a newline there. */
  ghost predicate FirstLineBehind(order: Bytes, cut: nat) {
    && 262144 < |order| && |order| - 262144 < cut <= |order|
    && order[cut - 1] == NEWLINE && NEWLINE !in order[|order| - 262144..cut - 1]
  }

  /** Opened without a cursor or an offset, the tail wants every event of a log of at most 256 KiB; of
      a longer one, those whose lines begin behind the first newline in its last 256 KiB. */
  lemma {:induction false} TailModeWants(decode: Bytes -> Option<Record>, order: Bytes, query: Query)
    requires query == NoQuery || query == FromTail
    ensures var start := StartOffset(|order|, query, None);
            var wanted := Wanted(decode, order[start..], start, StartSkips(|order|, query, None));
            if |order| <= 262144 then wanted == Events(decode, order, 0)
            else if NEWLINE !in order[|order| - 262144..] then wanted == []
            else
              exists cut: nat :: && FirstLineBehind(order, cut) && wanted == Events(decode, order[cut..], cut)
                                 && Events(decode, order, 0) == Events(decode, order[..cut], 0) + wanted
  {
    hide Events, Rest, FirstNewline, Wanted, FirstLineBehind;
    if |order| <= 262144 {
      assert order[0..] == order;
      FromTheStart(decode, order);
    } else {
      LongLogWants(decode, order, |order| - 262144);
    }
  }

  lemma {:induction false} FromTheStart(decode: Bytes -> Option<Record>, order: Bytes)
    ensures Wanted(decode, order, 0, false) == Events(decode, order, 0)
  {
  }

  lemma {:induction false} LongLogWants(decode: Bytes -> Option<Record>, order: Bytes, start: nat)
    requires 262144 < |order| && start == |order| - 262144
    ensures NEWLINE !in order[start..] ==> Wanted(decode, order[start..], start, true) == []
    ensures NEWLINE in order[start..] ==>
              exists cut: nat :: && FirstLineBehind(order, cut)
                                 && Wanted(decode, order[start..], start, true) == Events(decode, order[cut..], cut)
                                 && Events(decode, order, 0) == Events(decode, order[..cut], 0) + Events(decode, order[cut..], cut)
  {
    hide *;
    NothingWanted(decode, order[start..], start);
    if NEWLINE in order[start..] {
      var cut := CutOf(order, start);
      WantedBehind(decode, order, start, cut);
      EventsSplit(decode, order, cut);
    }
  }

  lemma {:induction false} NothingWanted(decode: Bytes -> Option<Record>, s: Bytes, start: nat)
    ensures NEWLINE !in s ==> Wanted(decode, s, start, true) == []
  {
    hide Events, Rest, FirstNewline;
    EmptyEvents(decode, start + |s|);
    assert FirstNewline(s) >= 0 ==> NEWLINE in s;
  }

  lemma {:induction false} CutOf(order: Bytes, start: nat) returns (cut: nat)
    requires 262144 < |order| && start == |order| - 262144 && NEWLINE in order[start..]
    ensures FirstLineBehind(order, cut) && FirstNewline(order[start..]) >= 0 && cut == start + FirstNewline(order[start..]) + 1
    ensures EndsLine(order[..cut])
  {
    hide FirstNewline;
    var n := FirstNewline(order[start..]);
    cut := start + n + 1;
    BehindNewline(order, start, n);
  }

  lemma {:induction false} WantedBehind(decode: Bytes -> Option<Record>, order: Bytes, start: nat, cut: nat)
    requires start <= |order| && FirstNewline(order[start..]) >= 0 && cut == start + FirstNewline(order[start..]) + 1
    ensures cut <= |order| && Wanted(decode, order[start..], start, true) == Events(decode, order[cut..], cut)
  {
    hide Events, Rest, FirstNewline;
    assert SkipLine(order[start..]) == order[cut..];
  }

  lemma {:induction false} BehindNewline(order: Bytes, start: nat, n: nat)
    requires 262144 < |order| && start == |order| - 262144 && n < 262144
    requires order[start..][n] == NEWLINE && NEWLINE !in order[start..][..n]
    ensures FirstLineBehind(order, start + n + 1)
  {
    assert order[start..start + n] == order[start..][..n];
  }

  lemma {:induction false} EventsSplit(decode: Bytes -> Option<Record>, order: Bytes, cut: nat)
    requires cut <= |order| && EndsLine(order[..cut])
    ensures Events(decode, order, 0) == Events(decode, order[..cut], 0) + Events(decode, order[cut..], cut)
  {
    hide Events, Rest, FirstNewline;
    NothingRests(order[..cut]);
    assert order[..cut] + order[cut..] == order && [] + order[cut..] == order[cut..];
    EventsAppend(decode, order[..cut], order[cut..], 0);
  }

  /** With a cursor or an offset it begins there, or at the end if that is beyond it, and skips nothing. */
  lemma CursorStartsThere(size: nat, query: Query, cursor: Option<nat>)
    requires cursor.Some? || query.From?
    ensures var wanted := if cursor.Some? then cursor.value else query.offset;
            StartOffset(size, query, cursor) == (if wanted <= size then wanted else size) && !StartSkips(size, query, cursor)
  {
  }

  /** A cursor a client got from the tail is the start of a line. */
  lemma {:induction false} CursorSeesLines(decode: Bytes -> Option<Record>, order: Bytes, start: nat, skip: bool, after: nat, i: nat)
    requires start <= after <= |order| && i < |Wanted(decode, order[start..after], start, skip)|
    ensures var id := Wanted(decode, order[start..after], start, skip)[i].id;
            id <= |order| && SeesLines(order, id, false)
  {
    hide Events, SkipLine;
    var s := order[start..after];
    var e := Wanted(decode, s, start, skip)[i];
    if skip {
      var rest := SkipLine(s);
      var base := start + |s| - |rest|;
      SkipLineIs(s);
      EventEnds(decode, rest, base, e);
      assert rest[e.id - base - 1] == order[e.id - 1];
    } else {
      EventEnds(decode, s, start, e);
      assert s[e.id - start - 1] == order[e.id - 1];
    }
  }

  /** A line names a frame exactly if it decodes to a record of one of the two streams with offsets in
      order; other lines are passed over. */
  lemma LineNames(decode: Bytes -> Option<Record>, line: Bytes, end: nat)
    ensures EventOf(decode, line, end)
            == match decode(line)
               case None => []
               case Some(r) => if r.stream in {"stdout", "stderr"} && 0 <= r.start <= r.next then [Event(end, r)] else []
  {
  }
}
