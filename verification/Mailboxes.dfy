/** Which mailboxes the generated dialplan records to. */
module Mailboxes {
  import opened Text
  import opened Topologies
  import opened Schedules
  import opened Dialplans
  import opened ScheduleRules
  import opened NodeRules
  import opened Generator
  import opened Linking
  import opened Validator

  /** The mailbox of a node: a voicemail node's own, or an extension's where voicemail is switched on. */
  ghost predicate OwnsMailbox(n: Node, mailbox: string)
  {
    || (n.VoicemailBox? && n.mailbox == mailbox)
    || (n.Extension? && n.voicemail == Some(Voicemail(true, mailbox)))
  }

  /** The entry is the node's own, in the call flow or behind its number. */
  ghost predicate EntryOf(n: Node, e: Entry)
  {
    || (e.context == "callflow" && e.exten == "node_" + Sanitize(n.id))
    || (n.Extension? && e.context == "internal" && e.exten == n.number)
  }

  /** Every message of these steps is recorded in a mailbox of this node. */
  ghost predicate RecordsOwn(n: Node, steps: seq<Step>)
  {
    forall s | s in steps && s.app.VoiceMail? :: OwnsMailbox(n, s.app.mailbox)
  }

  ghost predicate NoMessage(steps: seq<Step>) { forall s | s in steps :: !s.app.VoiceMail? }

  /** The entry records nothing, or it is a node's own and records in that node's mailbox. */
  ghost predicate RecordsRightly(nodes: seq<Node>, e: Entry)
  {
    NoMessage(e.steps) || exists n :: n in nodes && EntryOf(n, e) && RecordsOwn(n, e.steps)
  }

  ghost predicate AllRecordRightly(nodes: seq<Node>, entries: seq<Entry>)
  {
    forall e | e in entries :: RecordsRightly(nodes, e)
  }

  // ---------------------------------------------------------------- the steps of one node

  lemma FinishRecords(n: Node, fallback: Option<Edge>, mailbox: string)
    requires mailbox != "" ==> OwnsMailbox(n, mailbox)
    ensures RecordsOwn(n, Finish(fallback, mailbox))
  {
  }

  lemma RecordsBehind(n: Node, quiet: seq<Step>, steps: seq<Step>)
    requires NoMessage(quiet) && RecordsOwn(n, steps)
    ensures RecordsOwn(n, quiet + steps)
  {
  }

  lemma OwnMailboxOwned(n: Node)
    requires n.Extension? && OwnMailbox(n) != ""
    ensures OwnsMailbox(n, OwnMailbox(n))
  {
  }

  lemma CallRecords(t: Topology, n: Node)
    requires n.Extension? || n.RingGroup? || n.Queue?
    ensures RecordsOwn(n, CallflowSteps(t, n).value)
  {
    var fallback := FallbackEdge(Outgoing(t, n.id));
    if n.Extension? {
      if OwnMailbox(n) != "" {
        OwnMailboxOwned(n);
      }
      FinishRecords(n, fallback, OwnMailbox(n));
      RecordsBehind(n, [Line(NoOp), Line(Dial([Device(n)], 20.0))], Finish(fallback, OwnMailbox(n)));
    } else if n.RingGroup? {
      FinishRecords(n, fallback, "");
      RecordsBehind(n, [Line(NoOp)] + RingGroupDialLines(t, n), Finish(fallback, ""));
    } else {
      FinishRecords(n, fallback, "");
      RecordsBehind(n, [Line(NoOp), Line(EnterQueue(Sanitize(n.id), n.maxWaitTime))], Finish(fallback, ""));
    }
  }

  lemma {:induction false} WindowsRecordNothing(windows: seq<Window>, timezone: string, open: Target)
    requires ValidWindows(windows)
    ensures NoMessage(WindowSteps(windows, timezone, open))
  {
    if windows != [] {
      assert windows[0] in windows;
      WindowsRecordNothing(windows[1..], timezone, open);
    }
  }

  lemma ScheduleRecordsNothing(t: Topology, n: Node)
    requires n.Schedule? && Translatable(n)
    ensures NoMessage(ScheduleSteps(t, n))
  {
    var open, closed := FirstWith(Outgoing(t, n.id), Open), FirstWith(Outgoing(t, n.id), Closed);
    if open.Some? && closed.Some? {
      WindowsRecordNothing(n.windows, n.timezone, ToNode(open.value.target));
    }
  }

  lemma CallflowRecords(t: Topology, n: Node, e: Entry)
    requires Translatable(n) && e in CallflowEntry(t, n)
    ensures RecordsOwn(n, e.steps) && EntryOf(n, e)
  {
    if n.Schedule? {
      ScheduleRecordsNothing(t, n);
    } else if n.Extension? || n.RingGroup? || n.Queue? {
      CallRecords(t, n);
    }
  }

  lemma InternalRecords(t: Topology, n: Node)
    requires n.Extension?
    ensures RecordsOwn(n, InternalSteps(t, n))
  {
    var start := [Line(NoOp), Line(Dial([Device(n)], 20.0))];
    if FallbackEdge(Outgoing(t, n.id)).None? && n.voicemail.Some? && n.voicemail.value.enabled {
      var last := [Line(VoiceMail(n.voicemail.value.mailbox))] + [Line(Hangup)];
      assert InternalSteps(t, n) == start + last;
      assert OwnsMailbox(n, n.voicemail.value.mailbox);
    }
  }

  lemma {:induction false} KeysRecordNothing(context: string, edges: seq<Edge>)
    ensures forall e | e in KeyEntries(context, edges) :: NoMessage(e.steps)
  {
    if edges != [] {
      KeysRecordNothing(context, edges[1..]);
    }
  }

  lemma MenuRecordsNothing(t: Topology, n: Node)
    requires n.Ivr?
    ensures forall e | e in IvrEntries(t, n) :: NoMessage(e.steps)
  {
    KeysRecordNothing(IvrContext(n.id), Outgoing(t, n.id));
  }

  // ---------------------------------------------------------------- the whole file

  lemma {:induction false} SectionsRecord(t: Topology, nodes: seq<Node>, first: nat)
    requires forall n | n in nodes :: n in t.nodes && Translatable(n)
    ensures AllRecordRightly(t.nodes, InternalEntries(t, nodes)) && AllRecordRightly(t.nodes, EntryPoints(nodes, first))
    ensures AllRecordRightly(t.nodes, CallflowEntries(t, nodes)) && AllRecordRightly(t.nodes, AllIvrEntries(t, nodes))
    decreases |nodes|
  {
    if nodes != [] {
      var n := nodes[0];
      assert n in nodes;
      SectionsRecord(t, nodes[1..], first + 1);
      forall e | e in CallflowEntry(t, n) ensures RecordsRightly(t.nodes, e) {
        CallflowRecords(t, n, e);
      }
      if n.Extension? {
        InternalRecords(t, n);
        assert EntryOf(n, Entry("internal", n.number, InternalSteps(t, n)));
      }
      if n.Ivr? {
        MenuRecordsNothing(t, n);
      }
    }
  }

  lemma AcceptedMailbox(env: Environment, n: Node, mailbox: string)
    requires NodeOk(env, n) && OwnsMailbox(n, mailbox)
    ensures mailbox != "" && forall i | 0 <= i < |mailbox| :: '0' <= mailbox[i] <= '9'
  {
  }

  lemma AcceptedMailboxesDiffer(m: Node, n: Node, mailbox: string)
    requires Apart(m, n) || Apart(n, m)
    ensures !(OwnsMailbox(m, mailbox) && OwnsMailbox(n, mailbox))
  {
  }

  /**
   * In the file of an accepted topology every message is recorded in a mailbox of the node whose entry it
   * is in; mailboxes are numbers, and no two nodes share one.
   */
  lemma MessagesReachTheirMailbox(env: Environment, t: Topology)
    requires WellFormed(env, t)
    ensures Compilable(t) && AllRecordRightly(t.nodes, ExtensionsConf(t).entries)
    ensures forall n, mailbox | n in t.nodes && OwnsMailbox(n, mailbox) ::
              mailbox != "" && forall i | 0 <= i < |mailbox| :: '0' <= mailbox[i] <= '9'
    ensures forall i, j, mailbox | 0 <= i < j < |t.nodes| ::
              !(OwnsMailbox(t.nodes[i], mailbox) && OwnsMailbox(t.nodes[j], mailbox))
  {
    AcceptedCompiles(env, t);
    SectionsRecord(t, t.nodes, ENTRYPOINT_BASE);
    forall n, mailbox | n in t.nodes && OwnsMailbox(n, mailbox)
      ensures mailbox != "" && forall i | 0 <= i < |mailbox| :: '0' <= mailbox[i] <= '9'
    {
      var k :| 0 <= k < |t.nodes| && t.nodes[k] == n;
      AcceptedMailbox(env, t.nodes[k], mailbox);
    }
    forall i, j, mailbox | 0 <= i < j < |t.nodes|
      ensures !(OwnsMailbox(t.nodes[i], mailbox) && OwnsMailbox(t.nodes[j], mailbox))
    {
      AcceptedMailboxesDiffer(t.nodes[i], t.nodes[j], mailbox);
    }
  }
}
