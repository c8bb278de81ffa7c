/** The stream is read the same however it is cut into chunks, and written messages are read back. */
module AmiFraming {
  import opened Text
  import opened Ami

  function ReceiveAll(c: Client, chunks: seq<string>): Client
  {
    if chunks == [] then c else OnData(ReceiveAll(c, chunks[..|chunks| - 1]), chunks[|chunks| - 1])
  }

  function Concat(chunks: seq<string>): string
  {
    if chunks == [] then "" else Concat(chunks[..|chunks| - 1]) + chunks[|chunks| - 1]
  }

  /** No complete banner or block is waiting in the buffer. */
  ghost predicate Quiet(c: Client)
  {
    IndexOf(c.buffer, if c.bannerReceived then BLOCK_END else LINE_END).None?
  }

  /** A first occurrence stays first when text is appended. */
  lemma IndexOfPrefix(s: string, sep: string, more: string)
    requires IndexOf(s, sep).Some?
    ensures IndexOf(s + more, sep) == IndexOf(s, sep)
  {
    var i := IndexOf(s, sep).value;
    assert (s + more)[i..i + |sep|] == s[i..i + |sep|];
    forall j: nat | j < i ensures !OccursAt(s + more, j, sep) {
      assert !OccursAt(s, j, sep);
      assert (s + more)[j..j + |sep|] == s[j..j + |sep|];
    }
    IndexOfUnique(s + more, sep, i);
  }

  /** Draining before more text arrives changes nothing. */
  lemma {:induction false} DrainThenMore(d: Desk, buffer: string, more: string)
    ensures Drained(d, buffer + more) == Drained(Drained(d, buffer).desk, Drained(d, buffer).rest + more)
    decreases |buffer|
  {
    if IndexOf(buffer, BLOCK_END).Some? {
      IndexOfPrefix(buffer, BLOCK_END, more);
      var i := IndexOf(buffer, BLOCK_END).value;
      var rest := buffer[i + |BLOCK_END|..];
      assert (buffer + more)[..i] == buffer[..i] && (buffer + more)[i + |BLOCK_END|..] == rest + more;
      DrainThenMore(OnBlock(d, buffer[..i]), rest, more);
    }
  }

  lemma DrainedTwice(c: Client, buffer: string, more: string)
    ensures var once := WithDrained(c, buffer);
            WithDrained(once, once.buffer + more) == WithDrained(c, buffer + more)
  {
    DrainThenMore(c.desk, buffer, more);
  }

  lemma BannerPrefix(buffer: string, more: string)
    requires AfterBanner(buffer).Some?
    ensures AfterBanner(buffer + more) == Some(AfterBanner(buffer).value + more)
  {
    IndexOfPrefix(buffer, LINE_END, more);
    var i := IndexOf(buffer, LINE_END).value;
    assert (buffer + more)[i + |LINE_END|..] == buffer[i + |LINE_END|..] + more;
  }

  /** Two chunks have the effect of one, wherever the cut falls. */
  lemma OneChunkOrTwo(c: Client, a: string, b: string)
    ensures OnData(OnData(c, a), b) == OnData(c, a + b)
  {
    var buffer := c.buffer + a;
    assert c.buffer + (a + b) == buffer + b;
    if c.bannerReceived {
      DrainedTwice(c, buffer, b);
    } else if AfterBanner(buffer).Some? {
      BannerPrefix(buffer, b);
      DrainedTwice(c, AfterBanner(buffer).value, b);
    }
  }

  /** Any split of a stream into chunks leaves the client as the whole stream at once would. */
  lemma {:induction false} ChunkingIsIrrelevant(c: Client, chunks: seq<string>)
    requires Quiet(c)
    ensures ReceiveAll(c, chunks) == OnData(c, Concat(chunks)) && Quiet(ReceiveAll(c, chunks))
  {
    if chunks == [] {
      assert c.buffer + "" == c.buffer;
    } else {
      var k := |chunks| - 1;
      ChunkingIsIrrelevant(c, chunks[..k]);
      OneChunkOrTwo(c, Concat(chunks[..k]), chunks[k]);
    }
  }

  // ---------------------------------------------------------------- the whole stream

  function HandleAll(d: Desk, blocks: seq<string>): Desk
    decreases |blocks|
  {
    if blocks == [] then d else HandleAll(OnBlock(d, blocks[0]), blocks[1..])
  }

  /** The parts of a stream but the last are handled; the last is left. */
  function InParts(d: Desk, body: string): Drain
  {
    var parts := Split(body, BLOCK_END);
    Drain(HandleAll(d, parts[..|parts| - 1]), parts[|parts| - 1])
  }

  lemma InPartsStep(d: Desk, body: string, i: nat, rest: string)
    requires IndexOf(body, BLOCK_END) == Some(i) && rest == body[i + |BLOCK_END|..]
    ensures InParts(d, body) == InParts(OnBlock(d, body[..i]), rest)
  {
    var parts, tail := Split(body, BLOCK_END), Split(rest, BLOCK_END);
    assert parts == [body[..i]] + tail;
    assert parts[..|parts| - 1] == [body[..i]] + tail[..|tail| - 1];
    assert parts[..|parts| - 1][1..] == tail[..|tail| - 1];
  }

  lemma {:induction false} DrainedIsSplit(d: Desk, body: string)
    ensures Drained(d, body) == InParts(d, body)
    decreases |body|
  {
    if IndexOf(body, BLOCK_END).None? {
      assert Split(body, BLOCK_END)[..0] == [];
    } else {
      var i := IndexOf(body, BLOCK_END).value;
      InPartsStep(d, body, i, body[i + |BLOCK_END|..]);
      DrainedIsSplit(OnBlock(d, body[..i]), body[i + |BLOCK_END|..]);
    }
  }

  /** From a new connection, the blocks handled are those of the whole stream behind the banner. */
  lemma StreamIsSplit(c: Client, chunks: seq<string>)
    requires c.buffer == "" && !c.bannerReceived
    ensures match AfterBanner(Concat(chunks))
            case None => ReceiveAll(c, chunks) == c.(buffer := Concat(chunks))
            case Some(body) =>
              var r := InParts(c.desk, body);
              && ReceiveAll(c, chunks) == Client(c.open, r.rest, true, r.desk)
              && IndexOf(r.rest, BLOCK_END).None?
  {
    var stream := Concat(chunks);
    ChunkingIsIrrelevant(c, chunks);
    assert "" + stream == stream;
    if AfterBanner(stream).Some? {
      DrainedIsSplit(c.desk, AfterBanner(stream).value);
    }
  }

  // ---------------------------------------------------------------- written messages are read back

  function AsMessage(entries: seq<Entry>): Message
  {
    if entries == [] then map[]
    else AsMessage(entries[..|entries| - 1])[entries[|entries| - 1].key := entries[|entries| - 1].value]
  }

  predicate Trimmed(s: string) { s == "" || (!IsSpace(s[0]) && !IsSpace(s[|s| - 1])) }

  /** What can be sent: distinct keys without colons, nothing to trim and no carriage return. */
  ghost predicate Sendable(entries: seq<Entry>)
  {
    && (forall i | 0 <= i < |entries| ::
          && Trimmed(entries[i].key) && Free(entries[i].key, ':') && Free(entries[i].key, '\r')
          && Trimmed(entries[i].value) && Free(entries[i].value, '\r'))
    && (forall i, j | 0 <= i < j < |entries| :: entries[i].key != entries[j].key)
  }

  lemma TrimTrimmed(s: string)
    requires Trimmed(s)
    ensures Trim(s) == s && Trim(" " + s) == s
  {
    var spaced := " " + s;
    assert spaced[1..] == s && IsSpace(spaced[0]);
    assert TrimStart(spaced) == TrimStart(s) == s;
  }

  /** A written line reads back as its entry. */
  lemma LineReadsBack(msg: Message, e: Entry)
    requires Trimmed(e.key) && Free(e.key, ':') && Trimmed(e.value) && e.key !in msg
    ensures WithLine(msg, e.key + ": " + e.value) == msg[e.key := e.value]
  {
    var line := e.key + ": " + e.value;
    FirstChar(e.key, ':', " " + e.value);
    assert line == e.key + [':'] + (" " + e.value);
    assert line[..|e.key|] == e.key && line[|e.key| + 1..] == " " + e.value;
    TrimTrimmed(e.key);
    TrimTrimmed(e.value);
  }

  lemma {:induction false} AsMessageKeys(entries: seq<Entry>)
    ensures forall k :: k in AsMessage(entries) <==> exists i :: 0 <= i < |entries| && entries[i].key == k
  {
    if entries != [] {
      var k := |entries| - 1;
      AsMessageKeys(entries[..k]);
      assert forall i | 0 <= i < k :: entries[..k][i] == entries[i];
    }
  }

  lemma {:induction false} LinesReadBack(entries: seq<Entry>, k: nat)
    requires Sendable(entries) && k <= |entries|
    ensures WithLines(AsMessage(entries[..k]), Lines(entries[k..])) == AsMessage(entries)
    decreases |entries| - k
  {
    if k == |entries| {
      assert entries[..k] == entries;
    } else {
      AsMessageKeys(entries[..k]);
      assert entries[k..][0] == entries[k] && entries[k..][1..] == entries[k + 1..];
      assert entries[..k + 1][..k] == entries[..k];
      LineReadsBack(AsMessage(entries[..k]), entries[k]);
      LinesReadBack(entries, k + 1);
    }
  }

  /** Non-empty lines without carriage returns. */
  ghost predicate PlainLines(lines: seq<string>)
  {
    forall i | 0 <= i < |lines| :: lines[i] != "" && Free(lines[i], '\r')
  }

  lemma {:induction false} LinesPlain(entries: seq<Entry>)
    requires Sendable(entries)
    ensures PlainLines(Lines(entries)) && |Lines(entries)| == |entries|
  {
    if entries != [] {
      LinesPlain(entries[1..]);
    }
  }

  lemma {:induction false} SplitJoinLines(lines: seq<string>)
    requires |lines| >= 1 && PlainLines(lines)
    ensures Split(Join(lines, LINE_END), LINE_END) == lines
  {
    if |lines| == 1 {
      NoLineEnd(lines[0]);
    } else {
      var head, rest := lines[0], Join(lines[1..], LINE_END);
      var s := head + LINE_END + rest;
      FirstLineEnd(head, rest);
      assert s[..|head|] == head && s[|head| + |LINE_END|..] == rest;
      SplitJoinLines(lines[1..]);
    }
  }

  lemma OccursChar(s: string, j: nat, sep: string, k: nat)
    requires k < |sep|
    ensures OccursAt(s, j, sep) ==> s[j + k] == sep[k]
  {
    if OccursAt(s, j, sep) {
      assert s[j..j + |sep|][k] == s[j + k];
    }
  }

  lemma NoLineEnd(s: string)
    requires Free(s, '\r')
    ensures IndexOf(s, LINE_END) == None
  {
    forall j: nat ensures !OccursAt(s, j, LINE_END) {
      OccursChar(s, j, LINE_END, 0);
    }
  }

  lemma FirstLineEnd(head: string, rest: string)
    requires Free(head, '\r')
    ensures IndexOf(head + LINE_END + rest, LINE_END) == Some(|head|)
  {
    var s := head + LINE_END + rest;
    assert s[|head|..|head| + 2] == LINE_END;
    forall j: nat | j < |head| ensures !OccursAt(s, j, LINE_END) {
      OccursChar(s, j, LINE_END, 0);
      assert s[j] == head[j];
    }
    IndexOfUnique(s, LINE_END, |head|);
  }

  lemma OccursShift(a: string, s: string, j: nat, sep: string)
    ensures OccursAt(a + s, |a| + j, sep) <==> OccursAt(s, j, sep)
  {
    if j + |sep| <= |s| {
      assert (a + s)[|a| + j..|a| + j + |sep|] == s[j..j + |sep|];
    }
  }

  /** A payload contains no block end before its last four characters. */
  lemma {:induction false} NoEarlyBlockEnd(lines: seq<string>, j: nat, rest: string)
    requires |lines| >= 1 && PlainLines(lines) && j < |Join(lines, LINE_END)|
    ensures !OccursAt(Join(lines, LINE_END) + BLOCK_END + rest, j, BLOCK_END)
  {
    var s := Join(lines, LINE_END) + BLOCK_END + rest;
    var n := |lines[0]|;
    OccursChar(s, j, BLOCK_END, 0);
    OccursChar(s, j, BLOCK_END, 2);
    assert j < n ==> s[j] == lines[0][j];
    if j >= n {
      var tail := Join(lines[1..], LINE_END);
      assert s == lines[0] + LINE_END + (tail + BLOCK_END + rest);
      assert tail[0] == lines[1][0] && s[n + 2] == tail[0] && s[n + 1] == '\n';
      if j >= n + 2 {
        assert s == (lines[0] + LINE_END) + (tail + BLOCK_END + rest);
        OccursShift(lines[0] + LINE_END, tail + BLOCK_END + rest, j - (n + 2), BLOCK_END);
        NoEarlyBlockEnd(lines[1..], j - (n + 2), rest);
      }
    }
  }

  lemma FirstBlockEnd(lines: seq<string>, rest: string)
    requires |lines| >= 1 && PlainLines(lines)
    ensures IndexOf(Join(lines, LINE_END) + BLOCK_END + rest, BLOCK_END) == Some(|Join(lines, LINE_END)|)
  {
    var n := |Join(lines, LINE_END)|;
    var s := Join(lines, LINE_END) + BLOCK_END + rest;
    assert s[n..n + 4] == BLOCK_END;
    forall j: nat | j < n ensures !OccursAt(s, j, BLOCK_END) {
      NoEarlyBlockEnd(lines, j, rest);
    }
    IndexOfUnique(s, BLOCK_END, n);
  }

  /** A payload is one block, and parses to its own fields. */
  lemma PayloadReadsBack(entries: seq<Entry>)
    requires Sendable(entries) && entries != []
    ensures ParseBlock(Join(Lines(entries), LINE_END)) == AsMessage(entries) && AsMessage(entries) != map[]
  {
    LinesPlain(entries);
    SplitJoinLines(Lines(entries));
    assert entries[..0] == [] && entries[0..] == entries;
    LinesReadBack(entries, 0);
    assert entries[|entries| - 1].key in AsMessage(entries);
  }

  lemma {:induction false} FieldRead(entries: seq<Entry>, i: nat)
    requires Sendable(entries) && i < |entries|
    ensures Field(AsMessage(entries), entries[i].key) == entries[i].value
  {
    if i < |entries| - 1 {
      FieldRead(entries[..|entries| - 1], i);
    }
  }

  lemma DigitsPlain(n: nat)
    ensures Trimmed(ActionId(n)) && Free(ActionId(n), '\r')
  {
    var id := ActionId(n);
    assert forall i | 0 < i < |id| :: IsDigit(id[i]) by {
      assert forall i | 0 < i < |id| :: id[i] == Decimal(n)[i - 1];
    }
  }

  lemma SendableSnoc(fields: seq<Entry>, e: Entry)
    requires Sendable(fields) && forall f | f in fields :: f.key != e.key
    requires Trimmed(e.key) && Free(e.key, ':') && Free(e.key, '\r') && Trimmed(e.value) && Free(e.value, '\r')
    ensures Sendable(fields + [e])
  {
    var all := fields + [e];
    assert forall i | 0 <= i < |fields| :: all[i] == fields[i] && fields[i] in fields;
  }

  lemma ActionIdSendable(n: nat)
    ensures var e := Entry(ACTION_ID, ActionId(n));
      Trimmed(e.key) && Free(e.key, ':') && Free(e.key, '\r') && Trimmed(e.value) && Free(e.value, '\r')
  {
    DigitsPlain(n);
    assert ACTION_ID[0] == 'A' && ACTION_ID[7] == 'D' && |ACTION_ID| == 8;
  }

  /** What sendAction writes reads back as its fields under the new ActionID. */
  lemma SentReadsBack(fields: seq<Entry>, n: nat)
    requires Sendable(fields) && forall f | f in fields :: f.key != ACTION_ID
    ensures var entries := WithActionId(fields, ActionId(n));
      && ParseBlock(Join(Lines(entries), LINE_END)) == AsMessage(entries)
      && Field(AsMessage(entries), ACTION_ID) == ActionId(n)
      && forall i | 0 <= i < |fields| :: Field(AsMessage(entries), fields[i].key) == fields[i].value
  {
    var e := Entry(ACTION_ID, ActionId(n));
    NoActionId(fields, ActionId(n));
    ActionIdSendable(n);
    SendableSnoc(fields, e);
    PayloadReadsBack(fields + [e]);
    FieldRead(fields + [e], |fields|);
    forall i | 0 <= i < |fields| ensures Field(AsMessage(fields + [e]), fields[i].key) == fields[i].value {
      FieldRead(fields + [e], i);
    }
  }

  lemma {:induction false} NoActionId(fields: seq<Entry>, id: string)
    requires forall f | f in fields :: f.key != ACTION_ID
    ensures WithActionId(fields, id) == fields + [Entry(ACTION_ID, id)]
  {
    if fields != [] {
      NoActionId(fields[1..], id);
    }
  }

  function Payloads(sent: seq<seq<Entry>>): string
  {
    if sent == [] then "" else Payload(sent[0]) + Payloads(sent[1..])
  }

  function Deliver(d: Desk, sent: seq<seq<Entry>>): Desk
    decreases |sent|
  {
    if sent == [] then d else Deliver(OnMessage(d, AsMessage(sent[0])), sent[1..])
  }

  ghost predicate AllSendable(sent: seq<seq<Entry>>)
  {
    forall i | 0 <= i < |sent| :: sent[i] != [] && Sendable(sent[i])
  }

  lemma {:induction false} DrainedDelivers(d: Desk, sent: seq<seq<Entry>>)
    requires AllSendable(sent)
    ensures Drained(d, Payloads(sent)) == Drain(Deliver(d, sent), "")
    decreases |sent|
  {
    if sent != [] {
      var block, rest := Join(Lines(sent[0]), LINE_END), Payloads(sent[1..]);
      var buffer := block + BLOCK_END + rest;
      LinesPlain(sent[0]);
      FirstBlockEnd(Lines(sent[0]), rest);
      assert buffer[..|block|] == block && buffer[|block| + 4..] == rest;
      PayloadReadsBack(sent[0]);
      DrainedDelivers(OnMessage(d, AsMessage(sent[0])), sent[1..]);
    }
  }

  /** Behind a banner, messages written in the payload format arrive one by one, in order, in any chunks. */
  lemma WrittenIsRead(c: Client, banner: string, sent: seq<seq<Entry>>, chunks: seq<string>)
    requires c.buffer == "" && !c.bannerReceived && Free(banner, '\r') && AllSendable(sent)
    requires Concat(chunks) == banner + LINE_END + Payloads(sent)
    ensures ReceiveAll(c, chunks) == c.(bannerReceived := true, desk := Deliver(c.desk, sent))
  {
    var stream := Concat(chunks);
    ChunkingIsIrrelevant(c, chunks);
    FirstLineEnd(banner, Payloads(sent));
    assert "" + stream == stream;
    assert stream[|banner| + |LINE_END|..] == Payloads(sent);
    DrainedDelivers(c.desk, sent);
  }
}
