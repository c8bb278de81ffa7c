/** Whom the entries of the call flow ring, a group in which order, told from the topology alone. */
module RingGroups {
  import opened Text
  import opened Topologies
  import opened Dialplans
  import opened ScheduleRules
  import opened EdgeRules
  import opened Generator
  import opened Linking
  import opened Simulation
  import opened CallTheorems
  import opened Validator

  // ---------------------------------------------------------------- the order of ringing

  /** A membership without a position counts as one at position 0. */
  function PositionOf(m: Membership): real { match m.position case Some(p) => p case None => 0.0 }

  /** Membership i is rung before membership j: by position, at equal positions as stored. */
  predicate RungBefore(ms: seq<Membership>, i: nat, j: nat)
    requires i < |ms| && j < |ms|
  {
    PositionOf(ms[i]) < PositionOf(ms[j]) || (PositionOf(ms[i]) == PositionOf(ms[j]) && i < j)
  }

  /** Exactly the memberships of this group, each once, in ringing order. */
  ghost predicate RingOrder(ms: seq<Membership>, groupId: string, order: seq<nat>)
  {
    && (forall i: nat | i < |order| :: order[i] < |ms| && ms[order[i]].groupId == groupId)
    && (forall k: nat | k < |ms| && ms[k].groupId == groupId :: k in order)
    && (forall i: nat, j: nat | i < j < |order| :: RungBefore(ms, order[i], order[j]))
  }

  /** The endpoint of the phone that a membership names. */
  ghost predicate RingsPhone(t: Topology, m: Membership, endpoint: string)
  {
    exists n :: n in t.nodes && n.Extension? && n.id == m.memberId && endpoint == "PJSIP/" + Sanitize(n.sipUser)
  }

  ghost predicate RingsPhones(t: Topology, order: seq<nat>, endpoints: seq<string>)
  {
    && |endpoints| == |order|
    && forall i: nat | i < |order| :: order[i] < |t.memberships| && RingsPhone(t, t.memberships[order[i]], endpoints[i])
  }

  // ---------------------------------------------------------------- the sort, on indices

  predicate Indices(order: seq<nat>, n: nat) { forall i: nat | i < |order| :: order[i] < n }

  /** Where the sort puts membership i among those behind it. */
  function Insert(ms: seq<Membership>, i: nat, order: seq<nat>): (r: seq<nat>)
    requires i < |ms| && Indices(order, |ms|)
    ensures (forall k :: k in r <==> k == i || k in order) && Indices(r, |ms|)
  {
    if order == [] || PositionOf(ms[i]) <= PositionOf(ms[order[0]]) then [i] + order
    else
      assert forall k :: k in order <==> k == order[0] || k in order[1..];
      [order[0]] + Insert(ms, i, order[1..])
  }

  /** The memberships of a group from `from` on, as sorted by position. */
  function Order(ms: seq<Membership>, groupId: string, from: nat): (r: seq<nat>)
    requires from <= |ms|
    ensures (forall k :: k in r <==> from <= k < |ms| && ms[k].groupId == groupId) && Indices(r, |ms|)
    decreases |ms| - from
  {
    if from == |ms| then []
    else
      var rest := Order(ms, groupId, from + 1);
      if ms[from].groupId == groupId then Insert(ms, from, rest) else rest
  }

  ghost predicate InOrder(ms: seq<Membership>, order: seq<nat>)
  {
    && Indices(order, |ms|)
    && (order != [] ==>
          (forall i: nat | 0 < i < |order| :: RungBefore(ms, order[0], order[i])) && InOrder(ms, order[1..]))
  }

  lemma {:induction false} InsertKeeps(ms: seq<Membership>, i: nat, order: seq<nat>)
    requires i < |ms| && InOrder(ms, order) && forall a: nat | a < |order| :: i < order[a]
    ensures InOrder(ms, Insert(ms, i, order))
  {
    if order != [] && PositionOf(ms[i]) > PositionOf(ms[order[0]]) {
      InsertKeeps(ms, i, order[1..]);
      var rest := Insert(ms, i, order[1..]);
      assert Insert(ms, i, order)[1..] == rest;
      forall j: nat | j < |rest| ensures RungBefore(ms, order[0], rest[j]) {
        assert rest[j] in rest;
        if rest[j] != i {
          var a: nat :| a < |order[1..]| && order[1..][a] == rest[j];
          assert order[a + 1] == rest[j];
        }
      }
    } else {
      assert ([i] + order)[1..] == order;
      forall j: nat | j < |order| ensures RungBefore(ms, i, order[j]) {
        assert order[j] in order;
        assert j > 0 ==> RungBefore(ms, order[0], order[j]);
      }
    }
  }

  lemma {:induction false} OrderIsSorted(ms: seq<Membership>, groupId: string, from: nat)
    requires from <= |ms|
    ensures InOrder(ms, Order(ms, groupId, from))
    decreases |ms| - from
  {
    if from < |ms| {
      OrderIsSorted(ms, groupId, from + 1);
      if ms[from].groupId == groupId {
        var rest := Order(ms, groupId, from + 1);
        assert forall a: nat | a < |rest| :: rest[a] in rest;
        InsertKeeps(ms, from, Order(ms, groupId, from + 1));
      }
    }
  }

  lemma {:induction false} PairsInOrder(ms: seq<Membership>, order: seq<nat>, i: nat, j: nat)
    requires InOrder(ms, order) && i < j < |order|
    ensures order[i] < |ms| && order[j] < |ms| && RungBefore(ms, order[i], order[j])
  {
    if i > 0 {
      PairsInOrder(ms, order[1..], i - 1, j - 1);
    }
  }

  lemma OrderIsRingOrder(ms: seq<Membership>, groupId: string)
    ensures RingOrder(ms, groupId, Order(ms, groupId, 0))
  {
    var order := Order(ms, groupId, 0);
    OrderIsSorted(ms, groupId, 0);
    forall i: nat | i < |order| ensures order[i] < |ms| && ms[order[i]].groupId == groupId {
      assert order[i] in order;
    }
    forall i: nat, j: nat | i < j < |order| ensures RungBefore(ms, order[i], order[j]) {
      PairsInOrder(ms, order, i, j);
    }
  }

  // ---------------------------------------------------------------- the members of the generator

  ghost predicate PhonesKnown(t: Topology)
  {
    forall m | m in t.memberships :: NodeById(t, m.memberId).Some? && NodeById(t, m.memberId).value.Extension?
  }

  /** The member of the generator that a membership stands for. */
  function MemberFor(t: Topology, k: nat): Member
    requires PhonesKnown(t) && k < |t.memberships|
  {
    Member(PositionOf(t.memberships[k]), NodeById(t, t.memberships[k].memberId).value)
  }

  function MembersFor(t: Topology, order: seq<nat>): (r: seq<Member>)
    requires PhonesKnown(t) && Indices(order, |t.memberships|)
    ensures |r| == |order| && forall i: nat | i < |r| :: order[i] < |t.memberships| && r[i] == MemberFor(t, order[i])
  {
    if order == [] then [] else [MemberFor(t, order[0])] + MembersFor(t, order[1..])
  }

  lemma {:induction false} InsertedMembers(t: Topology, i: nat, order: seq<nat>)
    requires PhonesKnown(t) && i < |t.memberships| && Indices(order, |t.memberships|)
    ensures InsertMember(MemberFor(t, i), MembersFor(t, order)) == MembersFor(t, Insert(t.memberships, i, order))
  {
    if order != [] && PositionOf(t.memberships[i]) > PositionOf(t.memberships[order[0]]) {
      InsertedMembers(t, i, order[1..]);
      assert MembersFor(t, order)[1..] == MembersFor(t, order[1..]);
    }
  }

  /** The generator sorts what it stored into the order of the memberships. */
  lemma {:induction false} MembersAreOrdered(t: Topology, groupId: string, from: nat)
    requires PhonesKnown(t) && from <= |t.memberships|
    ensures SortMembers(MembersStored(t, t.memberships[from..], groupId))
            == MembersFor(t, Order(t.memberships, groupId, from))
    decreases |t.memberships| - from
  {
    if from < |t.memberships| {
      var ms := t.memberships[from..];
      assert ms[0] == t.memberships[from] && ms[1..] == t.memberships[from + 1..];
      assert ms[0] in t.memberships;
      MembersAreOrdered(t, groupId, from + 1);
      InsertedMembers(t, from, Order(t.memberships, groupId, from + 1));
    }
  }

  // ---------------------------------------------------------------- the steps of a group's entry

  /** All at once, or each in turn. */
  ghost predicate RingingSteps(strategy: string, endpoints: seq<string>, seconds: real, steps: seq<Step>)
  {
    if strategy == "ringall" then steps == [Step("", Dial(endpoints, seconds))]
    else
      && |steps| == |endpoints|
      && forall i: nat | i < |steps| :: steps[i] == Step("", Dial([endpoints[i]], seconds))
  }

  /** Then on along the edge out of the node, or to the mailbox, if there is one; and in the end the call is over. */
  ghost predicate LeavingSteps(t: Topology, id: string, mailbox: Option<string>, steps: seq<Step>)
  {
    if exists e :: e in t.edges && e.source == id then
      exists e :: e in t.edges && e.source == id
                  && steps == [Step("", Goto(Target("callflow", "node_" + Sanitize(e.target), Priority(1)))),
                               Step("", Hangup)]
    else if mailbox.Some? then steps == [Step("", VoiceMail(mailbox.value)), Step("", Hangup)]
    else steps == [Step("", Hangup)]
  }

  lemma AcceptedPhonesKnown(t: Topology)
    requires MembershipsOk(t, t.memberships)
    ensures PhonesKnown(t)
  {
    forall m | m in t.memberships ensures NodeById(t, m.memberId).Some? && NodeById(t, m.memberId).value.Extension? {
      var i :| 0 <= i < |t.memberships| && t.memberships[i] == m;
      assert EndsOk(t, t.memberships[i]);
    }
  }

  lemma DevicesAreEndpoints(t: Topology, order: seq<nat>)
    requires PhonesKnown(t) && Indices(order, |t.memberships|)
    ensures RingsPhones(t, order, Devices(MembersFor(t, order)))
  {
    var ms, endpoints := MembersFor(t, order), Devices(MembersFor(t, order));
    forall i: nat | i < |order| ensures RingsPhone(t, t.memberships[order[i]], endpoints[i]) {
      var n := NodeById(t, t.memberships[order[i]].memberId).value;
      assert ms[i].ext == n && n in t.nodes && endpoints[i] == "PJSIP/" + Sanitize(n.sipUser);
    }
  }

  lemma LeavesAsSaid(t: Topology, n: Node, mailbox: string)
    requires NodeSound(t, n) && (n.Extension? || n.RingGroup? || n.Queue?)
    ensures LeavingSteps(t, n.id, if mailbox == "" then None else Some(mailbox),
                         Finish(FallbackEdge(Outgoing(t, n.id)), mailbox))
  {
    var edges := Outgoing(t, n.id);
    if edges == [] {
      assert forall e :: e in t.edges && e.source == n.id ==> e in edges;
    } else {
      FallbackIsOnlyEdge(t, n);
      assert edges[0] in edges && edges[0] in t.edges && edges[0].source == n.id;
    }
  }

  /** The phones a group rings, and the steps that ring them. */
  lemma GroupPhones(t: Topology, n: Node) returns (order: seq<nat>, endpoints: seq<string>)
    requires n.RingGroup? && PhonesKnown(t) && MembersOf(t, n.id) != []
    ensures RingOrder(t.memberships, n.id, order) && RingsPhones(t, order, endpoints) && endpoints != []
    ensures RingingSteps(n.strategy, endpoints, n.ringTimeout, RingGroupDialLines(t, n))
  {
    order := Order(t.memberships, n.id, 0);
    OrderIsRingOrder(t.memberships, n.id);
    DevicesAreEndpoints(t, order);
    assert t.memberships[0..] == t.memberships;
    MembersAreOrdered(t, n.id, 0);
    endpoints := Devices(MembersFor(t, order));
  }

  lemma GroupEntry(t: Topology, dp: Dialplan, n: Node)
    requires n.RingGroup? && Translatable(n) && Linked(t, dp, n)
    ensures StepsOf(dp, "callflow", "node_" + Sanitize(n.id))
         == Some([Step("", NoOp)] + RingGroupDialLines(t, n) + Finish(FallbackEdge(Outgoing(t, n.id)), ""))
  {
  }

  /**
   * Entering a ring group of an accepted topology rings the phones of the group's memberships, each once,
   * in ascending order of their positions, and nobody else; unanswered, the call leaves along the edge.
   */
  lemma GroupRingsItsMembers(env: Environment, t: Topology, n: Node)
    returns (order: seq<nat>, endpoints: seq<string>, ringing: seq<Step>, leaving: seq<Step>)
    requires WellFormed(env, t) && n in t.nodes && n.RingGroup?
    ensures RingOrder(t.memberships, n.id, order) && RingsPhones(t, order, endpoints) && endpoints != []
    ensures RingingSteps(n.strategy, endpoints, n.ringTimeout, ringing) && LeavingSteps(t, n.id, None, leaving)
    ensures Compilable(t)
    ensures StepsOf(ExtensionsConf(t), "callflow", "node_" + Sanitize(n.id))
            == Some([Step("", NoOp)] + ringing + leaving)
  {
    SoundFile(env, t);
    AcceptedPhonesKnown(t);
    GroupIsSound(t, ExtensionsConf(t), n);
    order, endpoints := GroupPhones(t, n);
    LeavesAsSaid(t, n, "");
    GroupEntry(t, ExtensionsConf(t), n);
    ringing, leaving := RingGroupDialLines(t, n), Finish(FallbackEdge(Outgoing(t, n.id)), "");
  }

  lemma GroupIsSound(t: Topology, dp: Dialplan, n: Node)
    requires Sound(t, dp) && n in t.nodes && n.RingGroup?
    ensures NodeSound(t, n) && Linked(t, dp, n) && MembersOf(t, n.id) != []
  {
  }

  /** A phone's entry, and dialling its number, rings its own endpoint for twenty seconds. */
  lemma PhoneRingsItself(env: Environment, t: Topology, n: Node) returns (leaving: seq<Step>)
    requires WellFormed(env, t) && n in t.nodes && n.Extension?
    ensures LeavingSteps(t, n.id, match n.voicemail
                                  case Some(vm) => if vm.enabled then Some(vm.mailbox) else None
                                  case None => None, leaving)
    ensures Compilable(t)
    ensures var steps := [Step("", NoOp), Step("", Dial(["PJSIP/" + Sanitize(n.sipUser)], 20.0))] + leaving;
      && StepsOf(ExtensionsConf(t), "callflow", "node_" + Sanitize(n.id)) == Some(steps)
      && StepsOf(ExtensionsConf(t), "internal", n.number) == Some(steps)
  {
    SoundFile(env, t);
    assert NodeSound(t, n) && Linked(t, ExtensionsConf(t), n);
    LeavesAsSaid(t, n, OwnMailbox(n));
    leaving := Finish(FallbackEdge(Outgoing(t, n.id)), OwnMailbox(n));
  }

  /** A queue's entry puts the caller into its own queue for as long as it may hold, and then leaves. */
  lemma QueueHoldsTheCaller(env: Environment, t: Topology, n: Node) returns (leaving: seq<Step>)
    requires WellFormed(env, t) && n in t.nodes && n.Queue?
    ensures LeavingSteps(t, n.id, None, leaving)
    ensures Compilable(t)
    ensures StepsOf(ExtensionsConf(t), "callflow", "node_" + Sanitize(n.id))
         == Some([Step("", NoOp), Step("", EnterQueue(Sanitize(n.id), n.maxWaitTime))] + leaving)
  {
    SoundFile(env, t);
    assert NodeSound(t, n) && Linked(t, ExtensionsConf(t), n);
    LeavesAsSaid(t, n, "");
    leaving := Finish(FallbackEdge(Outgoing(t, n.id)), "");
  }

  /** A mailbox's entry records one message. */
  lemma MailboxRecords(env: Environment, t: Topology, n: Node)
    requires WellFormed(env, t) && n in t.nodes && n.VoicemailBox?
    ensures Compilable(t)
    ensures StepsOf(ExtensionsConf(t), "callflow", "node_" + Sanitize(n.id))
         == Some([Step("", NoOp), Step("", VoiceMail(n.mailbox)), Step("", Hangup)])
  {
    SoundFile(env, t);
    assert NodeSound(t, n) && Linked(t, ExtensionsConf(t), n);
  }
}
