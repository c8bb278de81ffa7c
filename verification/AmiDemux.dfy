/** Replies reach the action that asked: every issued action is pending or settled, once and correctly. */
module AmiDemux {
  import opened Text
  import opened Ami

  datatype Event =
    | Connected
    | Chunk(text: string)
    | Sent(completeEvent: Option<string>)
    | Expired(id: string)
    | NotWritten(id: string)
    | Lost
    | Closed

  function OnEvent(c: Client, e: Event): Client
  {
    match e
    case Connected => c.(open := true, buffer := "", bannerReceived := false)
    case Chunk(text) => OnData(c, text)
    case Sent(completeEvent) => if c.open then c.(desk := Send(c.desk, completeEvent)) else c
    case Expired(id) => c.(desk := Fail(c.desk, id, TimedOut))
    case NotWritten(id) => c.(desk := Fail(c.desk, id, WriteFailed))
    case Lost => c.(desk := FailAll(c.desk, ConnectionLost))
    case Closed => c.(open := false, desk := FailAll(c.desk, Disconnected))
  }

  function Run(events: seq<Event>): Client
  {
    if events == [] then NEW_CLIENT else OnEvent(Run(events[..|events| - 1]), events[|events| - 1])
  }

  // ---------------------------------------------------------------- what an action should receive

  /** The messages from position `from` on that carry this ActionID. */
  function Mine(emitted: seq<Message>, from: nat, id: string): seq<Message>
  {
    if |emitted| <= from then []
    else
      var last := emitted[|emitted| - 1];
      Mine(emitted[..|emitted| - 1], from, id) + if Field(last, ACTION_ID) == id then [last] else []
  }

  /** The messages up to and including the first completing one. */
  function UpToCompletion(messages: seq<Message>, completeEvent: Option<string>): Option<seq<Message>>
  {
    if messages == [] then None
    else
      var before, last := messages[..|messages| - 1], messages[|messages| - 1];
      var earlier := UpToCompletion(before, completeEvent);
      if earlier.Some? then earlier
      else if Completes(last, completeEvent) then Some(messages)
      else None
  }

  /** The reply this action should have received by now, if it is complete. */
  function Reply(d: Desk, id: string): Option<seq<Message>>
    requires id in d.issued
  {
    UpToCompletion(Mine(d.emitted, d.issued[id].position, id), d.issued[id].completeEvent)
  }

  ghost predicate Tracked(d: Desk, id: string)
    requires id in d.issued
  {
    if id in d.pending then
      && id !in d.outcomes && Reply(d, id) == None
      && d.pending[id] == Pending(Mine(d.emitted, d.issued[id].position, id), d.issued[id].completeEvent)
    else
      && id in d.outcomes
      && (d.outcomes[id].Resolved? ==> Reply(d, id) == Some(d.outcomes[id].messages))
  }

  ghost predicate IdsInUse(d: Desk)
  {
    && (forall n | 1 <= n <= d.counter :: ActionId(n) in d.issued)
    && (forall id | id in d.issued :: exists n | 1 <= n <= d.counter :: id == ActionId(n))
  }

  ghost predicate Consistent(d: Desk)
  {
    && IdsInUse(d)
    && d.pending.Keys <= d.issued.Keys && d.outcomes.Keys <= d.issued.Keys
    && (forall id | id in d.issued :: d.issued[id].position <= |d.emitted| && Tracked(d, id))
  }

  // ---------------------------------------------------------------- every step keeps it

  lemma ActionIdsDiffer(m: nat, n: nat)
    requires ActionId(m) == ActionId(n)
    ensures m == n
  {
    assert ActionId(m)[1..] == Decimal(m) && ActionId(n)[1..] == Decimal(n);
  }

  lemma MineAppend(emitted: seq<Message>, m: Message, from: nat, id: string)
    requires from <= |emitted|
    ensures Mine(emitted + [m], from, id) == Mine(emitted, from, id) + if Field(m, ACTION_ID) == id then [m] else []
  {
    assert (emitted + [m])[..|emitted|] == emitted;
  }

  lemma CompletionAppend(messages: seq<Message>, m: Message, completeEvent: Option<string>)
    ensures UpToCompletion(messages + [m], completeEvent)
         == if UpToCompletion(messages, completeEvent).Some? then UpToCompletion(messages, completeEvent)
            else if Completes(m, completeEvent) then Some(messages + [m]) else None
  {
    assert (messages + [m])[..|messages|] == messages;
  }

  /** How the reply due to an action changes with one more message. */
  lemma ReplyAfter(d: Desk, m: Message, id: string)
    requires id in d.issued && d.issued[id].position <= |d.emitted|
    ensures var mine := Mine(d.emitted, d.issued[id].position, id);
      Reply(OnMessage(d, m), id)
         == if Reply(d, id).Some? || Field(m, ACTION_ID) != id then Reply(d, id)
            else if Completes(m, d.issued[id].completeEvent) then Some(mine + [m]) else None
  {
    var mine := Mine(d.emitted, d.issued[id].position, id);
    MineAppend(d.emitted, m, d.issued[id].position, id);
    CompletionAppend(mine, m, d.issued[id].completeEvent);
    assert mine + [] == mine;
  }

  lemma OtherMessageKeepsTracked(d: Desk, m: Message, id: string)
    requires id in d.issued && d.issued[id].position <= |d.emitted| && Tracked(d, id) && Field(m, ACTION_ID) != id
    ensures Tracked(OnMessage(d, m), id)
  {
    ReplyAfter(d, m, id);
    MineAppend(d.emitted, m, d.issued[id].position, id);
  }

  lemma SettledKeepsTracked(d: Desk, m: Message, id: string)
    requires id in d.issued && d.issued[id].position <= |d.emitted| && Tracked(d, id) && id !in d.pending
    ensures Tracked(OnMessage(d, m), id)
  {
    ReplyAfter(d, m, id);
  }

  lemma OwnMessageKeepsTracked(d: Desk, m: Message, id: string)
    requires id in d.issued && d.issued[id].position <= |d.emitted| && Tracked(d, id) && id != ""
    requires id in d.pending && Field(m, ACTION_ID) == id
    ensures Tracked(OnMessage(d, m), id)
  {
    ReplyAfter(d, m, id);
    MineAppend(d.emitted, m, d.issued[id].position, id);
  }

  lemma MessageKeepsTracked(d: Desk, m: Message, id: string)
    requires id in d.issued && d.issued[id].position <= |d.emitted| && Tracked(d, id) && id != ""
    ensures Tracked(OnMessage(d, m), id)
  {
    if Field(m, ACTION_ID) != id {
      OtherMessageKeepsTracked(d, m, id);
    } else if id in d.pending {
      OwnMessageKeepsTracked(d, m, id);
    } else {
      SettledKeepsTracked(d, m, id);
    }
  }

  lemma MessageShape(d: Desk, m: Message)
    requires d.pending.Keys <= d.issued.Keys && d.outcomes.Keys <= d.issued.Keys
    ensures var e := OnMessage(d, m);
      && e.issued == d.issued && e.counter == d.counter && |e.emitted| == |d.emitted| + 1
      && e.pending.Keys <= e.issued.Keys && e.outcomes.Keys <= e.issued.Keys
  {
  }

  lemma NoEmptyId(d: Desk)
    requires IdsInUse(d)
    ensures "" !in d.issued
  {
  }

  lemma MessageKeeps(d: Desk, m: Message)
    requires Consistent(d)
    ensures Consistent(OnMessage(d, m))
  {
    MessageShape(d, m);
    NoEmptyId(d);
    forall id | id in d.issued ensures Tracked(OnMessage(d, m), id) {
      MessageKeepsTracked(d, m, id);
    }
  }

  lemma {:induction false} DrainKeeps(d: Desk, buffer: string)
    requires Consistent(d)
    ensures Consistent(Drained(d, buffer).desk)
    decreases |buffer|
  {
    if IndexOf(buffer, BLOCK_END).Some? {
      var i := IndexOf(buffer, BLOCK_END).value;
      var m := ParseBlock(buffer[..i]);
      if m != map[] {
        MessageKeeps(d, m);
      }
      DrainKeeps(OnBlock(d, buffer[..i]), buffer[i + |BLOCK_END|..]);
    }
  }

  lemma DataKeeps(c: Client, chunk: string)
    requires Consistent(c.desk)
    ensures Consistent(OnData(c, chunk).desk)
  {
    var buffer := c.buffer + chunk;
    if c.bannerReceived {
      DrainKeeps(c.desk, buffer);
    } else if AfterBanner(buffer).Some? {
      DrainKeeps(c.desk, AfterBanner(buffer).value);
    }
  }

  lemma FreshId(d: Desk)
    requires IdsInUse(d)
    ensures ActionId(d.counter + 1) !in d.issued
  {
    var id := ActionId(d.counter + 1);
    if id in d.issued {
      var n :| 1 <= n <= d.counter && id == ActionId(n);
      ActionIdsDiffer(n, d.counter + 1);
    }
  }

  lemma SendNumbers(d: Desk, completeEvent: Option<string>)
    requires IdsInUse(d)
    ensures IdsInUse(Send(d, completeEvent))
  {
    var e := Send(d, completeEvent);
    forall id | id in e.issued ensures exists n | 1 <= n <= e.counter :: id == ActionId(n) {
      if id in d.issued {
        var n :| 1 <= n <= d.counter && id == ActionId(n);
        assert 1 <= n <= e.counter;
      }
    }
  }

  lemma SendKeeps(d: Desk, completeEvent: Option<string>)
    requires Consistent(d)
    ensures Consistent(Send(d, completeEvent))
  {
    FreshId(d);
    SendNumbers(d, completeEvent);
    var e := Send(d, completeEvent);
    forall id | id in e.issued ensures e.issued[id].position <= |e.emitted| && Tracked(e, id) {
      if id in d.issued {
        assert Tracked(d, id);
      }
    }
  }

  lemma FailKeepsTracked(d: Desk, id: string, reason: Reason, x: string)
    requires x in d.issued && id in d.issued && Tracked(d, x)
    ensures Tracked(Fail(d, id, reason), x)
  {
  }

  lemma FailShape(d: Desk, id: string, reason: Reason)
    requires d.pending.Keys <= d.issued.Keys && d.outcomes.Keys <= d.issued.Keys
    ensures var e := Fail(d, id, reason);
      && e.issued == d.issued && e.counter == d.counter && e.emitted == d.emitted
      && e.pending.Keys <= e.issued.Keys && e.outcomes.Keys <= e.issued.Keys
  {
  }

  lemma FailKeeps(d: Desk, id: string, reason: Reason)
    requires Consistent(d)
    ensures Consistent(Fail(d, id, reason))
  {
    FailShape(d, id, reason);
    if id in d.issued {
      forall x | x in d.issued ensures Tracked(Fail(d, id, reason), x) {
        FailKeepsTracked(d, id, reason, x);
      }
    }
  }

  lemma FailAllKeeps(d: Desk, reason: Reason)
    requires Consistent(d)
    ensures Consistent(FailAll(d, reason))
  {
    var e := FailAll(d, reason);
    forall x | x in e.issued ensures Tracked(e, x) {
      assert Tracked(d, x);
    }
  }

  lemma EventKeeps(c: Client, e: Event)
    requires Consistent(c.desk)
    ensures Consistent(OnEvent(c, e).desk)
  {
    match e
    case Connected =>
    case Chunk(text) => DataKeeps(c, text);
    case Sent(completeEvent) => SendKeeps(c.desk, completeEvent);
    case Expired(id) => FailKeeps(c.desk, id, TimedOut);
    case NotWritten(id) => FailKeeps(c.desk, id, WriteFailed);
    case Lost => FailAllKeeps(c.desk, ConnectionLost);
    case Closed => FailAllKeeps(c.desk, Disconnected);
  }

  lemma {:induction false} RunConsistent(events: seq<Event>)
    ensures Consistent(Run(events).desk)
  {
    if events != [] {
      RunConsistent(events[..|events| - 1]);
      EventKeeps(Run(events[..|events| - 1]), events[|events| - 1]);
    }
  }

  // ---------------------------------------------------------------- the promises

  /** In every interleaving, each issued action is either pending or settled, never both and never neither. */
  lemma PendingXorSettled(events: seq<Event>, n: nat)
    ensures var d := Run(events).desk;
            1 <= n <= d.counter ==> ((ActionId(n) in d.pending) != (ActionId(n) in d.outcomes))
  {
    RunConsistent(events);
    var d := Run(events).desk;
    if 1 <= n <= d.counter {
      assert ActionId(n) in d.issued && Tracked(d, ActionId(n));
    }
  }

  /** A resolved action returned exactly its messages since it was issued, up to the first completing one. */
  lemma ResolvedExactly(events: seq<Event>, id: string)
    ensures var d := Run(events).desk;
            id in d.outcomes ==>
              && id in d.issued
              && (d.outcomes[id].Resolved? ==> Reply(d, id) == Some(d.outcomes[id].messages))
  {
    RunConsistent(events);
    var d := Run(events).desk;
    if id in d.outcomes {
      assert id in d.issued && Tracked(d, id);
    }
  }

  /** An action still pending has not been completed, and holds all of its messages so far. */
  lemma PendingNotCompleted(events: seq<Event>, id: string)
    ensures var d := Run(events).desk;
            id in d.pending ==>
              && id in d.issued && Reply(d, id) == None
              && d.pending[id].collected == Mine(d.emitted, d.issued[id].position, id)
  {
    RunConsistent(events);
    var d := Run(events).desk;
    if id in d.pending {
      assert id in d.issued && Tracked(d, id);
    }
  }

  // ---------------------------------------------------------------- when an action resolves

  predicate IsEvent(m: Message, name: string) { "Event" in m && m["Event"] == name }

  predicate IsResponse(m: Message) { "Response" in m && m["Response"] != "" }

  /** These are the messages of `mine` up to the first for which `last` holds. */
  ghost predicate EndsAtFirst(mine: seq<Message>, got: seq<Message>, last: Message -> bool)
  {
    && got != [] && |got| <= |mine| && got == mine[..|got|] && last(got[|got| - 1])
    && forall i: nat | i < |got| - 1 :: !last(mine[i])
  }

  lemma NoneBefore(before: seq<Message>, m: Message, last: Message -> bool)
    requires forall x | x in before :: !last(x)
    ensures last(m) ==> EndsAtFirst(before + [m], before + [m], last)
  {
    forall i: nat | i < |before| ensures !last((before + [m])[i]) {
      assert before[i] in before;
    }
  }

  lemma FirstStaysFirst(before: seq<Message>, m: Message, got: seq<Message>, last: Message -> bool)
    requires EndsAtFirst(before, got, last)
    ensures EndsAtFirst(before + [m], got, last)
  {
    assert (before + [m])[..|got|] == before[..|got|];
  }

  lemma {:induction false} CompletionIsFirst(mine: seq<Message>, completeEvent: Option<string>, last: Message -> bool)
    requires forall m | m in mine :: last(m) <==> Completes(m, completeEvent)
    ensures UpToCompletion(mine, completeEvent).Some? <==> exists m :: m in mine && last(m)
    ensures UpToCompletion(mine, completeEvent).Some? ==>
              EndsAtFirst(mine, UpToCompletion(mine, completeEvent).value, last)
  {
    if mine != [] {
      var before, m := mine[..|mine| - 1], mine[|mine| - 1];
      assert mine == before + [m];
      CompletionIsFirst(before, completeEvent, last);
      if UpToCompletion(before, completeEvent).None? {
        NoneBefore(before, m, last);
      } else {
        FirstStaysFirst(before, m, UpToCompletion(before, completeEvent).value, last);
      }
    }
  }

  /** An action that has not been rejected resolves with the first of its messages for which `last` holds. */
  ghost predicate ResolvesWith(d: Desk, id: string, last: Message -> bool)
    requires id in d.issued
  {
    var mine := Mine(d.emitted, d.issued[id].position, id);
    && (id in d.outcomes <==> exists m :: m in mine && last(m))
    && (id in d.outcomes ==> d.outcomes[id].Resolved? && EndsAtFirst(mine, d.outcomes[id].messages, last))
  }

  lemma ResolvesAsTracked(d: Desk, id: string, last: Message -> bool)
    requires id in d.issued && Tracked(d, id) && !(id in d.outcomes && d.outcomes[id].Rejected?)
    requires forall m: Message :: last(m) <==> Completes(m, d.issued[id].completeEvent)
    ensures ResolvesWith(d, id, last)
  {
    CompletionIsFirst(Mine(d.emitted, d.issued[id].position, id), d.issued[id].completeEvent, last);
  }

  /**
   * In every run, an action that asked for a completion event and was not rejected resolves exactly when
   * one of its messages is that event, with all its messages up to the first such, responses included.
   */
  lemma ListActionResolves(events: seq<Event>, id: string, name: string)
    requires id in Run(events).desk.issued && Run(events).desk.issued[id].completeEvent == Some(name) && name != ""
    requires !(id in Run(events).desk.outcomes && Run(events).desk.outcomes[id].Rejected?)
    ensures ResolvesWith(Run(events).desk, id, m => IsEvent(m, name))
  {
    RunConsistent(events);
    ResolvesAsTracked(Run(events).desk, id, m => IsEvent(m, name));
  }

  /** Any other action resolves exactly when one of its messages has a response, with its messages up to the first. */
  lemma PlainActionResolves(events: seq<Event>, id: string)
    requires id in Run(events).desk.issued
    requires Run(events).desk.issued[id].completeEvent == None || Run(events).desk.issued[id].completeEvent == Some("")
    requires !(id in Run(events).desk.outcomes && Run(events).desk.outcomes[id].Rejected?)
    ensures ResolvesWith(Run(events).desk, id, m => IsResponse(m))
  {
    RunConsistent(events);
    ResolvesAsTracked(Run(events).desk, id, m => IsResponse(m));
  }

  /** Why a pending action is rejected: its timer, its write, the connection, or all of them on disconnecting. */
  ghost function RejectedBy(e: Event, id: string): Option<Reason>
  {
    match e
    case Expired(x) => if x == id then Some(TimedOut) else None
    case NotWritten(x) => if x == id then Some(WriteFailed) else None
    case Lost => Some(ConnectionLost)
    case Closed => Some(Disconnected)
    case _ => None
  }

  /** What an event makes of a pending action: nothing final, its resolution, or this rejection. */
  ghost predicate SettlesAs(d: Desk, e: Event, id: string)
  {
    match RejectedBy(e, id)
    case Some(reason) => id !in d.pending && id in d.outcomes && d.outcomes[id] == Rejected(reason)
    case None => id in d.pending || (id in d.outcomes && d.outcomes[id].Resolved?)
  }

  lemma EventSettlesAs(c: Client, e: Event, id: string)
    requires id in c.desk.pending && id in c.desk.issued && id !in c.desk.outcomes
    ensures SettlesAs(OnEvent(c, e).desk, e, id)
  {
    match e
    case Chunk(text) => DataRejectsNothing(c, text, id);
    case _ =>
  }

  /** In every run exactly these events reject a pending action, each for its own reason. */
  lemma RejectedExactly(events: seq<Event>, e: Event, id: string)
    requires id in Run(events).desk.pending
    ensures SettlesAs(Run(events + [e]).desk, e, id)
  {
    assert (events + [e])[..|events|] == events;
    RunConsistent(events);
    var d := Run(events).desk;
    assert id in d.issued && Tracked(d, id);
    EventSettlesAs(Run(events), e, id);
  }

  lemma {:induction false} DrainRejectsNothing(d: Desk, buffer: string, id: string)
    requires id in d.pending || (id in d.outcomes && d.outcomes[id].Resolved?)
    requires id in d.pending ==> id !in d.outcomes
    ensures var r := Drained(d, buffer).desk; id in r.pending || (id in r.outcomes && r.outcomes[id].Resolved?)
    decreases |buffer|
  {
    if IndexOf(buffer, BLOCK_END).Some? {
      var i := IndexOf(buffer, BLOCK_END).value;
      DrainRejectsNothing(OnBlock(d, buffer[..i]), buffer[i + |BLOCK_END|..], id);
    }
  }

  lemma DataRejectsNothing(c: Client, chunk: string, id: string)
    requires id in c.desk.pending && id !in c.desk.outcomes
    ensures var d := OnData(c, chunk).desk; id in d.pending || (id in d.outcomes && d.outcomes[id].Resolved?)
  {
    var buffer := c.buffer + chunk;
    if c.bannerReceived {
      DrainRejectsNothing(c.desk, buffer, id);
    } else if AfterBanner(buffer).Some? {
      DrainRejectsNothing(c.desk, AfterBanner(buffer).value, id);
    }
  }

  // ---------------------------------------------------------------- what was asked for

  ghost predicate IssuesKept(d: Desk, e: Desk)
  {
    forall id | id in d.issued :: id in e.issued && e.issued[id] == d.issued[id]
  }

  lemma {:induction false} DrainKeepsIssues(d: Desk, buffer: string)
    ensures IssuesKept(d, Drained(d, buffer).desk)
    decreases |buffer|
  {
    if IndexOf(buffer, BLOCK_END).Some? {
      var i := IndexOf(buffer, BLOCK_END).value;
      DrainKeepsIssues(OnBlock(d, buffer[..i]), buffer[i + |BLOCK_END|..]);
    }
  }

  lemma DataKeepsIssues(c: Client, chunk: string)
    ensures IssuesKept(c.desk, OnData(c, chunk).desk)
  {
    var buffer := c.buffer + chunk;
    if c.bannerReceived {
      DrainKeepsIssues(c.desk, buffer);
    } else if AfterBanner(buffer).Some? {
      DrainKeepsIssues(c.desk, AfterBanner(buffer).value);
    }
  }

  lemma SendKeepsIssues(d: Desk, completeEvent: Option<string>)
    requires IdsInUse(d)
    ensures IssuesKept(d, Send(d, completeEvent))
  {
    FreshId(d);
  }

  lemma EventKeepsIssues(c: Client, e: Event)
    requires Consistent(c.desk)
    ensures IssuesKept(c.desk, OnEvent(c, e).desk)
  {
    match e
    case Chunk(text) => DataKeepsIssues(c, text);
    case Sent(completeEvent) => SendKeepsIssues(c.desk, completeEvent);
    case _ =>
  }

  /** The record of an action that is sent after `earlier`. */
  ghost predicate Records(d: Desk, earlier: Client, completeEvent: Option<string>)
  {
    var id := ActionId(earlier.desk.counter + 1);
    id in d.issued && d.issued[id] == Issue(|earlier.desk.emitted|, completeEvent)
  }

  lemma SentIsRecorded(c: Client, completeEvent: Option<string>)
    requires c.open
    ensures Records(OnEvent(c, Sent(completeEvent)).desk, c, completeEvent)
  {
  }

  lemma RecordStays(c: Client, e: Event, earlier: Client, completeEvent: Option<string>)
    requires Consistent(c.desk) && Records(c.desk, earlier, completeEvent)
    ensures Records(OnEvent(c, e).desk, earlier, completeEvent)
  {
    EventKeepsIssues(c, e);
  }

  /** It says what was asked for and how many messages had been emitted by then, in every later state. */
  lemma {:induction false} IssuedAsSent(events: seq<Event>, k: nat)
    requires k < |events| && events[k].Sent? && Run(events[..k]).open
    ensures Records(Run(events).desk, Run(events[..k]), events[k].completeEvent)
  {
    var n := |events| - 1;
    var before := events[..n];
    if k < n {
      assert before[..k] == events[..k];
      IssuedAsSent(before, k);
      RunConsistent(before);
      RecordStays(Run(before), events[n], Run(events[..k]), events[k].completeEvent);
    } else {
      SentIsRecorded(Run(before), events[k].completeEvent);
    }
  }

  ghost predicate Extends(a: map<string, Outcome>, b: map<string, Outcome>)
  {
    forall id | id in a :: id in b && b[id] == a[id]
  }

  lemma {:induction false} DrainExtends(d: Desk, buffer: string)
    ensures Extends(d.outcomes, Drained(d, buffer).desk.outcomes)
    decreases |buffer|
  {
    if IndexOf(buffer, BLOCK_END).Some? {
      var i := IndexOf(buffer, BLOCK_END).value;
      DrainExtends(OnBlock(d, buffer[..i]), buffer[i + |BLOCK_END|..]);
      BlockExtends(d, buffer[..i]);
    }
  }

  lemma BlockExtends(d: Desk, block: string)
    ensures Extends(d.outcomes, OnBlock(d, block).outcomes)
  {
  }

  lemma EventExtends(c: Client, e: Event)
    ensures Extends(c.desk.outcomes, OnEvent(c, e).desk.outcomes)
  {
    match e
    case Chunk(text) =>
      var buffer := c.buffer + text;
      if c.bannerReceived {
        DrainExtends(c.desk, buffer);
      } else if AfterBanner(buffer).Some? {
        DrainExtends(c.desk, AfterBanner(buffer).value);
      }
    case _ =>
  }

  /** The first settlement of an action is final, whatever timers, writes or replies come later. */
  lemma {:induction false} FirstSettlementIsFinal(events: seq<Event>, k: nat)
    requires k <= |events|
    ensures Extends(Run(events[..k]).desk.outcomes, Run(events).desk.outcomes)
  {
    if k == |events| {
      assert events[..k] == events;
    } else {
      var n := |events| - 1;
      FirstSettlementIsFinal(events[..n], k);
      assert events[..n][..k] == events[..k];
      EventExtends(Run(events[..n]), events[n]);
    }
  }
}
