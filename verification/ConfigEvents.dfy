/**
 Config-change events reach a subscriber in two ways: pushed by a hub in its own
 process, and read from a journal file that every hub appends to. The subscriber
 remembers how many bytes of the journal it has read.

 An event is its serialised text; serialised events are printable ASCII, so bytes
 and characters agree and a line break only ends a line of the journal.
 */
module ConfigEvents {

  /** A serialised event. */
  datatype Event = Event(text: string)

  predicate IsSpace(c: char) {
    c == ' ' || c == '\n' || c == '\t' || c == '\r'
  }

  /** What the serialiser writes: some printable text with no white space around it. */
  predicate IsSerialised(e: Event) {
    && e.text != "" && !IsSpace(e.text[0]) && !IsSpace(e.text[|e.text| - 1])
    && forall i :: 0 <= i < |e.text| ==> ' ' <= e.text[i] <= '~'
  }

  /** The lines of a text; an unfinished last line counts, an empty one does not. */
  function SplitLines(s: string): seq<string> {
    if s == "" then []
    else if s[0] == '\n' then [""] + SplitLines(s[1..])
    else
      var rest := SplitLines(s[1..]);
      if rest == [] then [[s[0]]] else [[s[0]] + rest[0]] + rest[1..]
  }

  function StripLeft(s: string): string {
    if s != "" && IsSpace(s[0]) then StripLeft(s[1..]) else s
  }

  function StripRight(s: string): string {
    if s != "" && IsSpace(s[|s| - 1]) then StripRight(s[..|s| - 1]) else s
  }

  function Strip(s: string): string {
    StripRight(StripLeft(s))
  }

  /** The events in the first `n` lines; blank lines are skipped. */
  function Payloads(lines: seq<string>, n: nat): seq<Event>
    requires n <= |lines|
  {
    if n == 0 then []
    else Payloads(lines, n - 1) + if Strip(lines[n - 1]) == "" then [] else [Event(Strip(lines[n - 1]))]
  }

  function EventsIn(s: string): seq<Event> {
    Payloads(SplitLines(s), |SplitLines(s)|)
  }

  function LineOf(e: Event): string {
    e.text + "\n"
  }

  /** The journal after appending the first `n` events. */
  function TextOf(events: seq<Event>, n: nat): string
    requires n <= |events|
  {
    if n == 0 then "" else TextOf(events, n - 1) + LineOf(events[n - 1])
  }

  // ---------------------------------------------------------------------------
  // The subscription
  // ---------------------------------------------------------------------------

  /** What lies behind the remembered offset; nothing if the file has become shorter. */
  function Unread(journal: string, offset: nat): string {
    if offset <= |journal| then journal[offset..] else ""
  }

  function Bounded(buffer: seq<Event>, maxEvents: nat): seq<Event> {
    if |buffer| <= maxEvents then buffer else buffer[|buffer| - maxEvents..]
  }

  /** What a subscriber holds: the pending events, and how much of the journal it has read. */
  datatype Feed = Feed(buffer: seq<Event>, offset: nat)

  function Pushed(f: Feed, e: Event, maxEvents: nat): Feed {
    f.(buffer := Bounded(f.buffer + [e], maxEvents))
  }

  function Refilled(f: Feed, journal: string): Feed {
    Feed(f.buffer + EventsIn(Unread(journal, f.offset)), |journal|)
  }

  /** A round of `get` reads the journal only when nothing is pending. */
  function Awaited(f: Feed, journal: string): Feed {
    if f.buffer == [] then Refilled(f, journal) else f
  }

  /** The oldest pending event is taken, if there is one. */
  function Taken(f: Feed): Feed {
    if f.buffer == [] then f else f.(buffer := f.buffer[1..])
  }

  class Subscription {
    const maxEvents: nat
    var buffer: seq<Event>
    var offset: nat

    ghost function Contents(): Feed
      reads this
    {
      Feed(buffer, offset)
    }

    /** A new subscriber starts behind what the journal already holds. */
    constructor (maxEvents: nat, journal: string)
      ensures this.maxEvents == maxEvents && Contents() == Feed([], |journal|)
    {
      this.maxEvents := maxEvents;
      buffer, offset := [], |journal|;
    }

    method Push(e: Event)
      modifies this`buffer
      ensures Contents() == Pushed(old(Contents()), e, maxEvents)
    {
      buffer := buffer + [e];
      while |buffer| > maxEvents
        invariant |buffer| <= |old(buffer)| + 1
        invariant Bounded(buffer, maxEvents) == Bounded(old(buffer) + [e], maxEvents)
      {
        buffer := buffer[1..];
      }
    }

    method ReadFromJournal(journal: string)
      modifies this
      ensures Contents() == Refilled(old(Contents()), journal)
    {
      ghost var before := buffer;
      var lines := SplitLines(Unread(journal, offset));
      for i := 0 to |lines|
        invariant buffer == before + Payloads(lines, i)
        invariant offset == old(offset)
      {
        var payload := Strip(lines[i]);
        if payload == "" {
          continue;
        }
        buffer := buffer + [Event(payload)];
      }
      offset := |journal|;
    }

    /** One round of `get`; without an event the caller waits and tries again. */
    method Poll(journal: string) returns (found: bool, e: Event)
      modifies this
      ensures var ready := Awaited(old(Contents()), journal);
              && Contents() == Taken(ready) && (found <==> ready.buffer != [])
              && (found ==> e == ready.buffer[0])
    {
      hide EventsIn, Unread;
      if buffer == [] {
        ReadFromJournal(journal);
      }
      if buffer == [] {
        return false, Event("");
      }
      found, e := true, buffer[0];
      buffer := buffer[1..];
    }

    /** `get_nowait`: reads the journal first. */
    method GetNowait(journal: string) returns (found: bool, e: Event)
      modifies this
      ensures var ready := Refilled(old(Contents()), journal);
              && Contents() == Taken(ready) && (found <==> ready.buffer != [])
              && (found ==> e == ready.buffer[0])
    {
      hide EventsIn, Unread;
      ReadFromJournal(journal);
      if buffer == [] {
        return false, Event("");
      }
      found, e := true, buffer[0];
      buffer := buffer[1..];
    }
  }

  // ---------------------------------------------------------------------------
  // Framing
  // ---------------------------------------------------------------------------

  lemma {:induction false} SplitLine(e: string, rest: string)
    requires forall i :: 0 <= i < |e| ==> e[i] != '\n'
    ensures SplitLines(e + "\n" + rest) == [e] + SplitLines(rest)
  {
    var s := e + "\n" + rest;
    if e == "" {
      assert s[1..] == rest;
    } else {
      SplitLine(e[1..], rest);
      assert s[1..] == e[1..] + "\n" + rest;
      assert [e[0]] + e[1..] == e;
    }
  }

  lemma SerialisedIsStripped(e: Event)
    requires IsSerialised(e)
    ensures Strip(e.text) == e.text && e.text != ""
    ensures forall i :: 0 <= i < |e.text| ==> e.text[i] != '\n'
  {
  }

  lemma {:induction false} PayloadsLine(line: string, e: Event, lines: seq<string>, n: nat)
    requires Strip(line) == e.text && e.text != "" && n <= |lines|
    ensures Payloads([line] + lines, n + 1) == [e] + Payloads(lines, n)
  {
    hide Strip;
    var all := [line] + lines;
    if n == 0 {
      assert all[0] == line && Payloads(all, 0) == [];
    } else {
      PayloadsLine(line, e, lines, n - 1);
      assert all[n] == lines[n - 1];
      var last := if Strip(lines[n - 1]) == "" then [] else [Event(Strip(lines[n - 1]))];
      assert ([e] + Payloads(lines, n - 1)) + last == [e] + (Payloads(lines, n - 1) + last);
    }
  }

  lemma EventsInCons(e: Event, rest: string)
    requires IsSerialised(e)
    ensures EventsIn(LineOf(e) + rest) == [e] + EventsIn(rest)
  {
    hide Strip, SplitLines, Payloads;
    SerialisedIsStripped(e);
    SplitLine(e.text, rest);
    PayloadsLine(e.text, e, SplitLines(rest), |SplitLines(rest)|);
  }

  ghost predicate AllSerialised(events: seq<Event>) {
    forall i :: 0 <= i < |events| ==> IsSerialised(events[i])
  }

  /** The text of some events is where the text of all of them starts. */
  lemma {:induction false} TextGrows(events: seq<Event>, m: nat, n: nat)
    requires m <= n <= |events|
    ensures |TextOf(events, m)| <= |TextOf(events, n)|
    ensures TextOf(events, n)[..|TextOf(events, m)|] == TextOf(events, m)
    decreases n
  {
    if m < n {
      TextGrows(events, m, n - 1);
    }
  }

  lemma RestOfText(events: seq<Event>, p: nat)
    requires p < |events|
    ensures |TextOf(events, p)| <= |TextOf(events, p + 1)| <= |TextOf(events, |events|)|
    ensures TextOf(events, |events|)[|TextOf(events, p)|..] ==
            LineOf(events[p]) + TextOf(events, |events|)[|TextOf(events, p + 1)|..]
  {
    var whole, done, more := TextOf(events, |events|), TextOf(events, p), TextOf(events, p + 1);
    TextGrows(events, p + 1, |events|);
    assert whole == more + whole[|more|..];
    assert more == done + LineOf(events[p]);
  }

  /** Reading is the inverse of appending: from any line boundary, the text gives back its events. */
  lemma {:induction false} ReadingInvertsAppending(events: seq<Event>, p: nat)
    requires AllSerialised(events) && p <= |events|
    ensures |TextOf(events, p)| <= |TextOf(events, |events|)|
    ensures EventsIn(TextOf(events, |events|)[|TextOf(events, p)|..]) == events[p..]
    decreases |events| - p
  {
    hide EventsIn, TextOf, LineOf, IsSerialised;
    if p < |events| {
      RestOfText(events, p);
      ReadingInvertsAppending(events, p + 1);
      EventsInCons(events[p], TextOf(events, |events|)[|TextOf(events, p + 1)|..]);
      assert events[p..] == [events[p]] + events[p + 1..];
    } else {
      assert TextOf(events, |events|)[|TextOf(events, p)|..] == "";
      NoEventsInNothing();
    }
  }

  lemma NoEventsInNothing()
    ensures EventsIn("") == []
  {
  }

  lemma {:induction false} TextIgnoresLater(events: seq<Event>, e: Event, n: nat)
    requires n <= |events|
    ensures TextOf(events + [e], n) == TextOf(events, n)
  {
    if n > 0 {
      TextIgnoresLater(events, e, n - 1);
    }
  }

  // ---------------------------------------------------------------------------
  // Runs
  // ---------------------------------------------------------------------------

  /** An append by another process, the two ways of receiving, and a publish by the subscriber's own hub. */
  datatype Action = Append(e: Event) | Nowait | Await | Publish(e: Event)

  /** The journal, with the events it holds, and one subscriber of it. */
  datatype State = State(journal: string, events: seq<Event>, feed: Feed, delivered: seq<Event>)

  function Read(s: State): State {
    s.(feed := Refilled(s.feed, s.journal))
  }

  function Pop(s: State): State {
    if s.feed.buffer == [] then s else s.(feed := Taken(s.feed), delivered := s.delivered + [s.feed.buffer[0]])
  }

  function Written(s: State, e: Event): State {
    s.(journal := s.journal + LineOf(e), events := s.events + [e])
  }

  function Step(s: State, a: Action, maxEvents: nat): State {
    match a
    case Append(e) => Written(s, e)
    case Nowait => Pop(Read(s))
    case Await => Pop(s.(feed := Awaited(s.feed, s.journal)))
    case Publish(e) => Written(s, e).(feed := Pushed(s.feed, e, maxEvents))
  }

  function Run(s: State, actions: seq<Action>, n: nat, maxEvents: nat): State
    requires n <= |actions|
  {
    if n == 0 then s else Step(Run(s, actions, n - 1, maxEvents), actions[n - 1], maxEvents)
  }

  /** Everything received so far, taken or still buffered. */
  function Received(s: State): seq<Event> {
    s.delivered + s.feed.buffer
  }

  /** The subscriber has read exactly the first `p` lines of the journal. */
  ghost predicate ReadUpTo(s: State, p: nat) {
    && AllSerialised(s.events) && s.journal == TextOf(s.events, |s.events|)
    && p <= |s.events| && s.feed.offset == |TextOf(s.events, p)|
  }

  ghost predicate Serialises(actions: seq<Action>) {
    forall i :: 0 <= i < |actions| ==>
      match actions[i] case Append(e) => IsSerialised(e) case Publish(e) => IsSerialised(e) case _ => true
  }

  lemma PopKeepsReceived(s: State)
    ensures Received(Pop(s)) == Received(s)
  {
    if s.feed.buffer != [] {
      assert s.delivered + s.feed.buffer == (s.delivered + [s.feed.buffer[0]]) + s.feed.buffer[1..];
    }
  }

  lemma ReadTakesRest(s: State, p: nat)
    requires ReadUpTo(s, p)
    ensures ReadUpTo(Read(s), |s.events|)
    ensures Received(Read(s)) == Received(s) + s.events[p..]
  {
    ReadingInvertsAppending(s.events, p);
  }

  lemma WriteKeepsOffset(s: State, p: nat, e: Event)
    requires ReadUpTo(s, p) && IsSerialised(e)
    ensures ReadUpTo(Written(s, e), p)
  {
    TextIgnoresLater(s.events, e, |s.events|);
    TextIgnoresLater(s.events, e, p);
  }

  /** One action: the offset stays on a line boundary, and without a publish the rest is received in order. */
  lemma StepReads(s: State, p: nat, a: Action, maxEvents: nat) returns (q: nat)
    requires ReadUpTo(s, p)
    requires match a case Append(e) => IsSerialised(e) case Publish(e) => IsSerialised(e) case _ => true
    ensures var after := Step(s, a, maxEvents);
            && p <= q && ReadUpTo(after, q) && s.events <= after.events
            && (!a.Publish? ==> Received(after) == Received(s) + after.events[p..q])
  {
    hide AllSerialised, IsSerialised, EventsIn, TextOf, LineOf;
    q := p;
    match a
    case Append(e) =>
      WriteKeepsOffset(s, p, e);
    case Publish(e) =>
      WriteKeepsOffset(s, p, e);
    case Nowait =>
      ReadTakesRest(s, p);
      PopKeepsReceived(Read(s));
      q := |s.events|;
    case Await =>
      if s.feed.buffer == [] {
        ReadTakesRest(s, p);
        PopKeepsReceived(Read(s));
        q := |s.events|;
      } else {
        PopKeepsReceived(s);
      }
  }

  lemma {:induction false} RunReads(s: State, p: nat, actions: seq<Action>, m: nat, n: nat, maxEvents: nat)
    returns (q: nat)
    requires m <= n <= |actions| && Serialises(actions) && ReadUpTo(Run(s, actions, m, maxEvents), p)
    ensures var before, after := Run(s, actions, m, maxEvents), Run(s, actions, n, maxEvents);
            && p <= q && ReadUpTo(after, q) && before.events <= after.events
            && ((forall i :: m <= i < n ==> !actions[i].Publish?) ==>
                  Received(after) == Received(before) + after.events[p..q])
    decreases n
  {
    hide Step, Received, AllSerialised;
    if m == n {
      q := p;
      assert Received(Run(s, actions, n, maxEvents)) + [] == Received(Run(s, actions, n, maxEvents));
    } else {
      var r := RunReads(s, p, actions, m, n - 1, maxEvents);
      q := StepReads(Run(s, actions, n - 1, maxEvents), r, actions[n - 1], maxEvents);
    }
  }

  /** A subscriber as it starts, behind `start` events that the journal already holds. */
  ghost predicate Subscribed(s: State, start: nat) {
    s.feed.buffer == [] && s.delivered == [] && start == |s.events| && ReadUpTo(s, start)
  }

  ghost predicate PublishFree(actions: seq<Action>) {
    forall i :: 0 <= i < |actions| ==> !actions[i].Publish?
  }

  /**
   Fed only by other processes, a subscriber receives the events appended after
   its subscription exactly once each and in append order, whatever the
   interleaving of appends and reads; the offset is a line boundary throughout,
   and one more read makes up for all that is missing.
   */
  lemma JournalFeedIsExactlyOnce(s: State, start: nat, actions: seq<Action>, maxEvents: nat)
    requires Subscribed(s, start) && Serialises(actions) && PublishFree(actions)
    ensures var after := Run(s, actions, |actions|, maxEvents);
            && start <= |after.events|
            && Received(after) <= after.events[start..]
            && Received(Read(after)) == after.events[start..]
            && after.feed.offset == |TextOf(after.events, start + |Received(after)|)|
  {
    hide Read, Step, AllSerialised, TextOf;
    var q := RunReads(s, start, actions, 0, |actions|, maxEvents);
    var after := Run(s, actions, |actions|, maxEvents);
    assert Received(s) == [];
    assert Received(after) == after.events[start..q];
    ReadTakesRest(after, q);
    assert after.events[start..] == after.events[start..q] + after.events[q..];
  }

  ghost predicate NoRepeats(events: seq<Event>) {
    forall i, j :: 0 <= i < j < |events| ==> events[i] != events[j]
  }

  /** Right after a publish the event is in the buffer and also still to be read. */
  lemma PublishedTwice(s: State, p: nat, e: Event, maxEvents: nat)
    requires ReadUpTo(s, p) && IsSerialised(e) && maxEvents >= 1
    ensures var after := Step(s, Publish(e), maxEvents);
            && ReadUpTo(after, p) && p < |after.events| && after.events[|after.events| - 1] == e
            && |Received(after)| > 0 && Received(after)[|Received(after)| - 1] == e
  {
    WriteKeepsOffset(s, p, e);
  }

  /** The last publish of a run. */
  lemma {:induction false} LastPublish(actions: seq<Action>, n: nat) returns (i: nat)
    requires n <= |actions| && exists k :: 0 <= k < n && actions[k].Publish?
    ensures i < n && actions[i].Publish? && forall k :: i < k < n ==> !actions[k].Publish?
  {
    if actions[n - 1].Publish? {
      i := n - 1;
    } else {
      i := LastPublish(actions, n - 1);
    }
  }

  /** A received event that is still to be read is received twice. */
  lemma TwiceIsNotOnce(received: seq<Event>, events: seq<Event>, start: nat, p: nat, q: nat)
    requires start <= |events| && p <= q <= |events| && NoRepeats(events[start..])
    requires |received| > 0 && p < q && exists j :: p <= j < q && events[j] == received[|received| - 1]
    ensures received + events[p..q] != events[start..]
  {
    var whole := received + events[p..q];
    var j :| p <= j < q && events[j] == received[|received| - 1];
    var a, b := |received| - 1, |received| + j - p;
    assert whole[a] == events[j] && whole[b] == events[j] && a < b;
  }

  /**
   A hub with a journal both appends and pushes what it publishes, so its own
   subscribers get such an event twice. Over events that are all different, a
   subscriber that has read the whole journal has received each event once and in
   order exactly when its own hub published none of them.
   */
  lemma ExactlyOnceWithoutPublish(s: State, start: nat, actions: seq<Action>, maxEvents: nat)
    requires Subscribed(s, start) && Serialises(actions) && maxEvents >= 1
    requires start <= |Run(s, actions, |actions|, maxEvents).events|
    requires NoRepeats(Run(s, actions, |actions|, maxEvents).events[start..])
    ensures Received(Read(Run(s, actions, |actions|, maxEvents)))
            == Run(s, actions, |actions|, maxEvents).events[start..]
            <==> PublishFree(actions)
  {
    if PublishFree(actions) {
      JournalFeedIsExactlyOnce(s, start, actions, maxEvents);
    } else {
      SomePublishRepeats(s, start, actions, maxEvents);
    }
  }

  /** From round `m` on, without a publish, all that was unread is received in order. */
  lemma {:induction false} ReceivesTheRest(s: State, p: nat, actions: seq<Action>, m: nat, maxEvents: nat)
    requires m <= |actions| && Serialises(actions) && ReadUpTo(Run(s, actions, m, maxEvents), p)
    requires forall i :: m <= i < |actions| ==> !actions[i].Publish?
    ensures var before, after := Run(s, actions, m, maxEvents), Run(s, actions, |actions|, maxEvents);
            && p <= |before.events| && before.events <= after.events
            && Received(Read(after)) == Received(before) + after.events[p..]
  {
    hide Read, Received, AllSerialised, Step, TextOf;
    var before, after := Run(s, actions, m, maxEvents), Run(s, actions, |actions|, maxEvents);
    var q := RunReads(s, p, actions, m, |actions|, maxEvents);
    ReadTakesRest(after, q);
    assert after.events[p..] == after.events[p..q] + after.events[q..];
  }

  lemma {:induction false} SomePublishRepeats(s: State, start: nat, actions: seq<Action>, maxEvents: nat)
    requires Subscribed(s, start) && Serialises(actions) && maxEvents >= 1 && !PublishFree(actions)
    requires start <= |Run(s, actions, |actions|, maxEvents).events|
    requires NoRepeats(Run(s, actions, |actions|, maxEvents).events[start..])
    ensures Received(Read(Run(s, actions, |actions|, maxEvents)))
            != Run(s, actions, |actions|, maxEvents).events[start..]
  {
    hide Read, Received, NoRepeats, AllSerialised, Step, TextOf;
    var n := |actions|;
    var i := LastPublish(actions, n);
    var p := RunReads(s, start, actions, 0, i, maxEvents);
    PublishedTwice(Run(s, actions, i, maxEvents), p, actions[i].e, maxEvents);
    var mid, after := Run(s, actions, i + 1, maxEvents), Run(s, actions, n, maxEvents);
    ReceivesTheRest(s, p, actions, i + 1, maxEvents);
    assert after.events[|mid.events| - 1] == mid.events[|mid.events| - 1];
    assert after.events[p..|after.events|] == after.events[p..];
    TwiceIsNotOnce(Received(mid), after.events, start, p, |after.events|);
  }

  // ---------------------------------------------------------------------------
  // Lines that are no events, and journals that shrink
  // ---------------------------------------------------------------------------

  lemma {:induction false} BlankStrips(s: string)
    requires forall i :: 0 <= i < |s| ==> IsSpace(s[i])
    ensures StripLeft(s) == "" && Strip(s) == ""
  {
    if s != "" {
      BlankStrips(s[1..]);
    }
  }

  lemma {:induction false} PayloadsSkip(blank: string, lines: seq<string>, n: nat)
    requires Strip(blank) == "" && n <= |lines|
    ensures Payloads([blank] + lines, n + 1) == Payloads(lines, n)
  {
    hide Strip;
    var all := [blank] + lines;
    if n == 0 {
      assert all[0] == blank && Payloads(all, 0) == [];
    } else {
      PayloadsSkip(blank, lines, n - 1);
      assert all[n] == lines[n - 1];
    }
  }

  /** A line of white space is no event. */
  lemma BlankLinesAreSkipped(blank: string, rest: string)
    requires forall i :: 0 <= i < |blank| ==> IsSpace(blank[i]) && blank[i] != '\n'
    ensures EventsIn(blank + "\n" + rest) == EventsIn(rest)
  {
    hide Strip, SplitLines, Payloads;
    BlankStrips(blank);
    SplitLine(blank, rest);
    PayloadsSkip(blank, SplitLines(rest), |SplitLines(rest)|);
  }

  predicate Blank(s: string) {
    forall i :: 0 <= i < |s| ==> IsSpace(s[i]) && s[i] != '\n'
  }

  lemma {:induction false} StripsLeft(pre: string, text: string)
    requires Blank(pre) && text != "" && !IsSpace(text[0])
    ensures StripLeft(pre + text) == text
  {
    if pre == "" {
      assert pre + text == text;
    } else {
      StripsLeft(pre[1..], text);
      assert (pre + text)[1..] == pre[1..] + text;
    }
  }

  lemma {:induction false} StripsRight(text: string, post: string)
    requires Blank(post) && text != "" && !IsSpace(text[|text| - 1])
    ensures StripRight(text + post) == text
  {
    if post == "" {
      assert text + post == text;
    } else {
      StripsRight(text, post[..|post| - 1]);
      assert (text + post)[..|text + post| - 1] == text + post[..|post| - 1];
    }
  }

  /** White space around an event is dropped. */
  lemma PaddingIsDropped(pre: string, e: Event, post: string, rest: string)
    requires IsSerialised(e) && Blank(pre) && Blank(post)
    ensures EventsIn((pre + e.text + post) + "\n" + rest) == [e] + EventsIn(rest)
  {
    hide StripLeft, StripRight, SplitLines, Payloads;
    var line := pre + e.text + post;
    assert line == pre + (e.text + post);
    StripsLeft(pre, e.text + post);
    StripsRight(e.text, post);
    SplitLine(line, rest);
    PayloadsLine(line, e, SplitLines(rest), |SplitLines(rest)|);
  }

  lemma {:induction false} OneLine(s: string)
    requires s != "" && forall i :: 0 <= i < |s| ==> s[i] != '\n'
    ensures SplitLines(s) == [s]
  {
    if |s| > 1 {
      OneLine(s[1..]);
      assert [s[0]] + s[1..] == s;
    } else {
      assert s[1..] == "" && [s[0]] == s;
    }
  }

  /** A last line counts also when its line break is missing. */
  lemma UnfinishedLineCounts(e: Event)
    requires IsSerialised(e)
    ensures EventsIn(e.text) == [e]
  {
    hide Strip, SplitLines;
    SerialisedIsStripped(e);
    OneLine(e.text);
    assert Payloads([e.text], 0) == [];
  }

  /** A journal that has become shorter than what was read gives nothing until it grows behind its new end. */
  lemma ShrunkJournalIsPassed(f: Feed, journal: string)
    requires |journal| < f.offset
    ensures Refilled(f, journal) == Feed(f.buffer, |journal|)
  {
    NoEventsInNothing();
    assert f.buffer + [] == f.buffer;
  }

  // ---------------------------------------------------------------------------
  // Taking events
  // ---------------------------------------------------------------------------

  /** A push keeps the newest events, as many as the bound allows. */
  lemma PushKeepsNewest(f: Feed, e: Event, maxEvents: nat)
    ensures var all, kept := f.buffer + [e], Pushed(f, e, maxEvents).buffer;
            && |kept| == (if |all| <= maxEvents then |all| else maxEvents)
            && (forall i :: 0 <= i < |kept| ==> kept[i] == all[|all| - |kept| + i])
            && Pushed(f, e, maxEvents).offset == f.offset
  {
  }

  /** All that a reader could take now: what is pending, then what it has not read yet. */
  function Available(s: State): seq<Event> {
    s.feed.buffer + EventsIn(Unread(s.journal, s.feed.offset))
  }

  /** A read without waiting delivers the oldest available event, and leaves the rest. */
  lemma NowaitDelivers(s: State, maxEvents: nat)
    ensures var after := Step(s, Nowait, maxEvents);
            && (Available(s) == [] ==> after.delivered == s.delivered)
            && (Available(s) != [] ==>
                  after.delivered == s.delivered + [Available(s)[0]] && after.feed.buffer == Available(s)[1..])
            && after.feed.offset == |s.journal| && after.journal == s.journal && after.events == s.events
  {
    hide EventsIn;
  }

  /** A waiting read delivers the oldest pending event without looking at the journal, or the oldest unread one. */
  lemma AwaitDelivers(s: State, maxEvents: nat)
    ensures var after := Step(s, Await, maxEvents);
            && (Available(s) != [] ==> after.delivered == s.delivered + [Available(s)[0]])
            && (Available(s) == [] ==> after.delivered == s.delivered)
            && (s.feed.buffer != [] ==> after.feed.offset == s.feed.offset && after.feed.buffer == s.feed.buffer[1..])
            && (s.feed.buffer == [] ==> after.feed.offset == |s.journal|)
  {
    hide EventsIn;
  }

  /** Reading often enough delivers everything that is available, in order. */
  lemma {:induction false} ReadsDeliverAll(s: State, calls: seq<Action>, n: nat, maxEvents: nat)
    requires n <= |calls| && forall i :: 0 <= i < |calls| ==> calls[i] == Nowait
    ensures var after := Run(s, calls, n, maxEvents);
            && after.journal == s.journal
            && after.delivered == s.delivered + (if n <= |Available(s)| then Available(s)[..n] else Available(s))
            && Available(after) == (if n <= |Available(s)| then Available(s)[n..] else [])
  {
    hide Step, EventsIn, Available;
    if n > 0 {
      ReadsDeliverAll(s, calls, n - 1, maxEvents);
      NowaitLeavesRest(Run(s, calls, n - 1, maxEvents), maxEvents);
    }
  }

  lemma NowaitLeavesRest(s: State, maxEvents: nat)
    ensures var after := Step(s, Nowait, maxEvents);
            && after.journal == s.journal
            && (if Available(s) == [] then after.delivered == s.delivered && Available(after) == []
                else after.delivered == s.delivered + [Available(s)[0]] && Available(after) == Available(s)[1..])
  {
    NowaitDelivers(s, maxEvents);
    NoEventsInNothing();
    var after := Step(s, Nowait, maxEvents);
    assert Unread(after.journal, after.feed.offset) == "";
    assert Available(after) == after.feed.buffer + [] == after.feed.buffer;
  }
}
