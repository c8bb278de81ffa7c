/** The manager-interface client: framing its stream and matching replies (backend/src/asterisk/amiClient.ts). */
module Ami {
  import opened Text

  type Message = map<string, string>

  const LINE_END := "\r\n"
  const BLOCK_END := "\r\n\r\n"

  // ---------------------------------------------------------------- parsing one block

  /** The characters that `String.prototype.trim` removes. */
  predicate IsSpace(c: char)
  {
    var k := c as int;
    || 9 <= k <= 13 || k == 32 || k == 160 || k == 0x1680 || 0x2000 <= k <= 0x200a
    || k == 0x2028 || k == 0x2029 || k == 0x202f || k == 0x205f || k == 0x3000 || k == 0xfeff
  }

  function TrimStart(s: string): string
  {
    if s != "" && IsSpace(s[0]) then TrimStart(s[1..]) else s
  }

  function TrimEnd(s: string): string
  {
    if s != "" && IsSpace(s[|s| - 1]) then TrimEnd(s[..|s| - 1]) else s
  }

  function Trim(s: string): string { TrimEnd(TrimStart(s)) }

  /** One line read into a message: the last value wins, but repeated Output lines are joined. */
  function WithLine(msg: Message, line: string): Message
  {
    match IndexOf(line, ":")
    case None => msg
    case Some(sep) =>
      var key, value := Trim(line[..sep]), Trim(line[sep + 1..]);
      msg[key := if key == "Output" && key in msg && msg[key] != "" then msg[key] + "\n" + value else value]
  }

  function WithLines(msg: Message, lines: seq<string>): Message
    decreases |lines|
  {
    if lines == [] then msg else WithLines(WithLine(msg, lines[0]), lines[1..])
  }

  function ParseBlock(block: string): Message { WithLines(map[], Split(block, LINE_END)) }

  // ---------------------------------------------------------------- the client

  datatype Pending = Pending(collected: seq<Message>, completeEvent: Option<string>)

  datatype Reason = TimedOut | WriteFailed | ConnectionLost | Disconnected

  datatype Outcome = Resolved(messages: seq<Message>) | Rejected(reason: Reason)

  /** When an action was issued: how many messages had been emitted by then. */
  datatype Issue = Issue(position: nat, completeEvent: Option<string>)

  /** `outcomes` are the settled promises; `emitted` and `issued` record history. */
  datatype Desk = Desk(
    counter: nat, pending: map<string, Pending>, outcomes: map<string, Outcome>,
    emitted: seq<Message>, issued: map<string, Issue>)

  datatype Client = Client(open: bool, buffer: string, bannerReceived: bool, desk: Desk)

  const NEW_CLIENT := Client(false, "", false, Desk(0, map[], map[], [], map[]))

  function ActionId(n: nat): string { "a" + Decimal(n) }

  function Field(m: Message, key: string): string { if key in m then m[key] else "" }

  /** A list action ends with its completion event, a plain one with its first response. */
  predicate Completes(m: Message, completeEvent: Option<string>)
  {
    if completeEvent.Some? && completeEvent.value != "" then "Event" in m && m["Event"] == completeEvent.value
    else Field(m, "Response") != ""
  }

  /** A promise keeps its first settlement. */
  function Settle(outcomes: map<string, Outcome>, id: string, o: Outcome): map<string, Outcome>
  {
    if id in outcomes then outcomes else outcomes[id := o]
  }

  function OnMessage(d: Desk, m: Message): Desk
  {
    var heard := d.(emitted := d.emitted + [m]);
    var id := Field(m, ACTION_ID);
    if id == "" || id !in d.pending then heard
    else
      var p := d.pending[id].(collected := d.pending[id].collected + [m]);
      if Completes(m, p.completeEvent) then
        heard.(pending := d.pending - {id}, outcomes := Settle(d.outcomes, id, Resolved(p.collected)))
      else heard.(pending := d.pending[id := p])
  }

  function OnBlock(d: Desk, block: string): Desk
  {
    var m := ParseBlock(block);
    if m == map[] then d else OnMessage(d, m)
  }

  datatype Drain = Drain(desk: Desk, rest: string)

  /** Every complete block in the buffer is handled in order. */
  function Drained(d: Desk, buffer: string): (r: Drain)
    ensures IndexOf(r.rest, BLOCK_END).None?
    decreases |buffer|
  {
    match IndexOf(buffer, BLOCK_END)
    case None => Drain(d, buffer)
    case Some(i) => Drained(OnBlock(d, buffer[..i]), buffer[i + |BLOCK_END|..])
  }

  function WithDrained(c: Client, buffer: string): Client
  {
    var r := Drained(c.desk, buffer);
    c.(buffer := r.rest, bannerReceived := true, desk := r.desk)
  }

  /** The stream behind the first line, once that line is complete. */
  function AfterBanner(buffer: string): Option<string>
  {
    match IndexOf(buffer, LINE_END)
    case None => None
    case Some(i) => Some(buffer[i + |LINE_END|..])
  }

  function OnData(c: Client, chunk: string): Client
  {
    var buffer := c.buffer + chunk;
    if c.bannerReceived then WithDrained(c, buffer)
    else
      match AfterBanner(buffer)
      case None => c.(buffer := buffer)
      case Some(body) => WithDrained(c, body)
  }

  datatype Entry = Entry(key: string, value: string)

  /** The entries of a payload, one `key: value` line each. */
  function Lines(entries: seq<Entry>): seq<string>
  {
    if entries == [] then [] else [entries[0].key + ": " + entries[0].value] + Lines(entries[1..])
  }

  function Payload(entries: seq<Entry>): string { Join(Lines(entries), LINE_END) + BLOCK_END }

  const ACTION_ID := "ActionID"

  /** `{ ...fields, ActionID: id }`: an ActionID among the fields is replaced where it stands. */
  function WithActionId(fields: seq<Entry>, id: string): seq<Entry>
  {
    if fields == [] then [Entry(ACTION_ID, id)]
    else if fields[0].key == ACTION_ID then [Entry(ACTION_ID, id)] + fields[1..]
    else [fields[0]] + WithActionId(fields[1..], id)
  }

  /** sendAction on an open socket. */
  function Send(d: Desk, completeEvent: Option<string>): Desk
  {
    var id := ActionId(d.counter + 1);
    d.(counter := d.counter + 1, pending := d.pending[id := Pending([], completeEvent)],
       issued := d.issued[id := Issue(|d.emitted|, completeEvent)])
  }

  /** The timer or the write callback of an action that was issued. */
  function Fail(d: Desk, id: string, reason: Reason): Desk
  {
    if id !in d.issued then d
    else d.(pending := d.pending - {id}, outcomes := Settle(d.outcomes, id, Rejected(reason)))
  }

  function RejectAll(outcomes: map<string, Outcome>, ids: set<string>, reason: Reason): map<string, Outcome>
  {
    map id | id in outcomes.Keys + ids :: if id in outcomes then outcomes[id] else Rejected(reason)
  }

  lemma RejectOneMore(outcomes: map<string, Outcome>, ids: set<string>, id: string, reason: Reason)
    ensures Settle(RejectAll(outcomes, ids, reason), id, Rejected(reason)) == RejectAll(outcomes, ids + {id}, reason)
  {
  }

  function FailAll(d: Desk, reason: Reason): Desk
  {
    d.(pending := map[], outcomes := RejectAll(d.outcomes, d.pending.Keys, reason))
  }

  // ---------------------------------------------------------------- the program

  class AmiClient {
    var open: bool
    var buffer: string
    var bannerReceived: bool
    var actionCounter: nat
    var pending: map<string, Pending>
    var outcomes: map<string, Outcome>
    ghost var emitted: seq<Message>
    ghost var issued: map<string, Issue>

    ghost function TheDesk(): Desk
      reads this
    {
      Desk(actionCounter, pending, outcomes, emitted, issued)
    }

    ghost function State(): Client
      reads this
    {
      Client(open, buffer, bannerReceived, TheDesk())
    }

    constructor ()
      ensures State() == NEW_CLIENT
    {
      open, buffer, bannerReceived := false, "", false;
      actionCounter, pending, outcomes := 0, map[], map[];
      emitted, issued := [], map[];
    }

    /** A new socket starts a new stream; actions already pending stay pending. */
    method Connect()
      modifies this`open, this`buffer, this`bannerReceived
      ensures State() == old(State()).(open := true, buffer := "", bannerReceived := false)
    {
      open, buffer, bannerReceived := true, "", false;
    }

    method SettlePromise(id: string, o: Outcome)
      modifies this`outcomes
      ensures outcomes == Settle(old(outcomes), id, o)
    {
      if id !in outcomes { outcomes := outcomes[id := o]; }
    }

    method ReadBlock(block: string) returns (msg: Message)
      ensures msg == ParseBlock(block)
    {
      msg := map[];
      var lines, k := Split(block, LINE_END), 0;
      while k < |lines|
        invariant 0 <= k <= |lines|
        invariant WithLines(map[], lines) == WithLines(msg, lines[k..])
      {
        assert lines[k..][1..] == lines[k + 1..];
        var sep := IndexOf(lines[k], ":");
        if sep.Some? {
          var key, value := Trim(lines[k][..sep.value]), Trim(lines[k][sep.value + 1..]);
          if key == "Output" && key in msg && msg[key] != "" {
            msg := msg[key := msg[key] + "\n" + value];
          } else {
            msg := msg[key := value];
          }
        }
        k := k + 1;
      }
    }

    method HandleBlock(block: string)
      modifies this`pending, this`outcomes, this`emitted
      ensures TheDesk() == OnBlock(old(TheDesk()), block)
    {
      var msg := ReadBlock(block);
      if msg == map[] { return; }
      emitted := emitted + [msg];
      var id := Field(msg, ACTION_ID);
      if id == "" || id !in pending { return; }
      var p := pending[id].(collected := pending[id].collected + [msg]);
      pending := pending[id := p];
      if Completes(msg, p.completeEvent) {
        pending := pending - {id};
        SettlePromise(id, Resolved(p.collected));
      }
    }

    method Receive(chunk: string)
      modifies this`buffer, this`bannerReceived, this`pending, this`outcomes, this`emitted
      ensures State() == OnData(old(State()), chunk)
    {
      buffer := buffer + chunk;
      if !bannerReceived {
        var idx := IndexOf(buffer, LINE_END);
        if idx.None? { return; }
        buffer := buffer[idx.value + 2..];
        bannerReceived := true;
      }
      HandleBlocks();
    }

    /** The loop over the complete blocks in the buffer. */
    method HandleBlocks()
      modifies this`buffer, this`pending, this`outcomes, this`emitted
      ensures Drain(TheDesk(), buffer) == Drained(old(TheDesk()), old(buffer))
    {
      var idx := IndexOf(buffer, BLOCK_END);
      while idx.Some?
        invariant idx == IndexOf(buffer, BLOCK_END)
        invariant Drained(TheDesk(), buffer) == Drained(old(TheDesk()), old(buffer))
        decreases |buffer|
      {
        var block := buffer[..idx.value];
        buffer := buffer[idx.value + 4..];
        HandleBlock(block);
        idx := IndexOf(buffer, BLOCK_END);
      }
    }

    /** sendAction: None without a socket, otherwise the id the promise waits for and the text written. */
    method SendAction(fields: seq<Entry>, completeEvent: Option<string>) returns (sent: Option<(string, string)>)
      modifies this`actionCounter, this`pending, this`issued
      ensures old(open) ==>
                && TheDesk() == Send(old(TheDesk()), completeEvent)
                && var id := "a" + Decimal(old(actionCounter) + 1);
                   sent == Some((id, Payload(WithActionId(fields, id))))
      ensures !old(open) ==> State() == old(State()) && sent == None
    {
      if !open { return None; }
      actionCounter := actionCounter + 1;
      var actionId := ActionId(actionCounter);
      issued := issued[actionId := Issue(|emitted|, completeEvent)];
      pending := pending[actionId := Pending([], completeEvent)];
      sent := Some((actionId, Payload(WithActionId(fields, actionId))));
    }

    /** A timeout or a failed write; the callback exists only for an issued action. */
    method FailAction(id: string, reason: Reason)
      requires id in issued
      modifies this`pending, this`outcomes
      ensures TheDesk() == Fail(old(TheDesk()), id, reason)
    {
      pending := pending - {id};
      SettlePromise(id, Rejected(reason));
    }

    method FailAllPending(reason: Reason)
      modifies this`pending, this`outcomes
      ensures TheDesk() == FailAll(old(TheDesk()), reason)
    {
      RejectEach(pending.Keys, reason);
      pending := map[];
    }

    method RejectEach(ids: set<string>, reason: Reason)
      modifies this`outcomes
      ensures outcomes == RejectAll(old(outcomes), ids, reason)
    {
      var left := ids;
      while left != {}
        invariant left <= ids
        invariant outcomes == RejectAll(old(outcomes), ids - left, reason)
        decreases |left|
      {
        var id :| id in left;
        RejectOneMore(old(outcomes), ids - left, id, reason);
        assert ids - (left - {id}) == (ids - left) + {id};
        SettlePromise(id, Rejected(reason));
        left := left - {id};
      }
      assert ids - left == ids;
    }

    method Disconnect()
      modifies this`open, this`pending, this`outcomes
      ensures State() == old(State()).(open := false, desk := FailAll(old(TheDesk()), Disconnected))
    {
      FailAllPending(Disconnected);
      open := false;
    }
  }
}
