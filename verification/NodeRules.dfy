/** validateNodes (shared/src/validator.ts): rules of single nodes and uniqueness across nodes. */
module NodeRules {
  import opened Text
  import opened Topologies
  import opened Issues
  import opened ScheduleRules

  const ENTRYPOINT_BASE: nat := 600

  // ---------------------------------------------------------------- regular expressions

  /** `/^[0-9]+$/` */
  predicate IsNumber(s: string) { s != "" && AllDigits(s) }

  predicate IsSipChar(c: char) { IsNameChar(c) || c == '.' || c == '@' || c == '+' || c == '-' }

  /** `/^[A-Za-z0-9_.@+-]+$/` */
  predicate IsSipUser(s: string) { s != "" && forall i | 0 <= i < |s| :: IsSipChar(s[i]) }

  predicate IsGreetingChar(c: char) { IsNameChar(c) || c == '/' || c == '-' }

  /** `/^[A-Za-z0-9_/-]+$/`, no leading slash; dots are excluded with `..` */
  predicate IsGreeting(s: string)
  {
    s != "" && s[0] != '/' && forall i | 0 <= i < |s| :: IsGreetingChar(s[i])
  }

  predicate WholeBetween(x: real, low: real, high: real) { x.Floor as real == x && low <= x <= high }

  ghost predicate Whole(x: real) { x - x.Floor as real == 0.0 }

  // ---------------------------------------------------------------- the same by character code

  /** An ASCII digit, letter or underscore. */
  ghost predicate NameCode(k: int) { 48 <= k <= 57 || 65 <= k <= 90 || 97 <= k <= 122 || k == 95 }

  ghost predicate NumberText(s: string) { s != "" && forall i | 0 <= i < |s| :: 48 <= s[i] as int <= 57 }

  /** Name characters, plus (43), minus (45), dot (46) and at sign (64). */
  ghost predicate SipText(s: string)
  {
    s != "" && forall i | 0 <= i < |s| :: var k := s[i] as int; NameCode(k) || k == 43 || k == 45 || k == 46 || k == 64
  }

  /** Name characters, minus (45) and slash (47), which does not come first. */
  ghost predicate GreetingText(s: string)
  {
    s != "" && s[0] as int != 47 && forall i | 0 <= i < |s| :: var k := s[i] as int; NameCode(k) || k == 45 || k == 47
  }

  lemma TextsByCode(s: string)
    ensures IsNumber(s) <==> NumberText(s)
    ensures IsSipUser(s) <==> SipText(s)
    ensures IsGreeting(s) <==> GreetingText(s)
  {
  }

  lemma StrategiesByName(s: string)
    ensures s in RING_STRATEGIES <==>
              s == "ringall" || s == "roundrobin" || s == "leastrecent" || s == "fewestcalls" || s == "random"
  {
  }

  /** What Asterisk gets to see of a name: its letters, digits and underscores, and underscores for the rest. */
  lemma SanitizedByCode(id: string, i: nat)
    requires i < |id|
    ensures |Sanitize(id)| == |id|
    ensures Sanitize(id)[i] as int == if NameCode(id[i] as int) then id[i] as int else 95
  {
  }

  // ---------------------------------------------------------------- the rules

  const RING_STRATEGIES := ["ringall", "roundrobin", "leastrecent", "fewestcalls", "random"]

  function Mailbox(n: Node): Option<string>
  {
    match n
    case VoicemailBox(_, mailbox) => Some(mailbox)
    case Extension(_, _, _, _, _, Some(vm)) => if vm.enabled then Some(vm.mailbox) else None
    case _ => None
  }

  ghost predicate NodeOk(env: Environment, n: Node)
  {
    && n.id != "" && !n.Trunk? && !n.External?
    && (n.Extension? ==> IsNumber(n.number) && n.number != "110" && n.number != "112" && IsSipUser(n.sipUser))
    && (Mailbox(n).Some? ==> IsNumber(Mailbox(n).value))
    && (n.Ivr? ==> IvrOk(env, n))
    && (n.Schedule? ==> ScheduleOk(env, n))
    && (n.RingGroup? ==> RingGroupOk(n))
    && (n.Queue? ==> QueueOk(n))
  }

  ghost predicate IvrOk(env: Environment, n: Node)
    requires n.Ivr?
  {
    && IsGreeting(n.greeting) && Whole(n.timeout) && 1.0 <= n.timeout <= 120.0 && n.invalidRetries >= 1.0
    && (env.sounds.Some? ==> n.greeting in env.sounds.value)
  }

  ghost predicate RingGroupOk(n: Node)
    requires n.RingGroup?
  {
    n.strategy in RING_STRATEGIES && Whole(n.ringTimeout) && 1.0 <= n.ringTimeout <= 300.0
  }

  ghost predicate QueueOk(n: Node)
    requires n.Queue?
  {
    && (n.strategy in RING_STRATEGIES || n.strategy == "rrmemory")
    && n.joinEmpty in ["yes", "no", "strict"] && n.leaveWhenEmpty in ["yes", "no"]
    && Whole(n.timeout) && 1.0 <= n.timeout <= 300.0 && Whole(n.maxWaitTime) && 1.0 <= n.maxWaitTime <= 3600.0
  }

  /** Two nodes do not fight over an id, a generated name, a number, a SIP name or a mailbox. */
  ghost predicate Apart(a: Node, b: Node)
  {
    && a.id != b.id && Sanitize(a.id) != Sanitize(b.id)
    && (a.Extension? && b.Extension? ==>
          a.number != b.number && a.sipUser != b.sipUser && Sanitize(a.sipUser) != Sanitize(b.sipUser))
    && (Mailbox(a).Some? && Mailbox(b).Some? ==> Mailbox(a) != Mailbox(b))
  }

  ghost predicate NodesOk(env: Environment, nodes: seq<Node>)
  {
    && (forall i | 0 <= i < |nodes| :: NodeOk(env, nodes[i]))
    && (forall i, j | 0 <= i < j < |nodes| :: Apart(nodes[i], nodes[j]))
  }

  // ---------------------------------------------------------------- the owner maps of the loop

  /** The key sets of seenNodeIds and the five owner maps. */
  datatype Owners = Owners(ids: set<string>, names: set<string>, numbers: set<string>,
                           sipUsers: set<string>, sipNames: set<string>, mailboxes: set<string>)

  const NONE: Owners := Owners({}, {}, {}, {}, {}, {})

  ghost function OwnersOf(nodes: seq<Node>): Owners
  {
    Owners(set n | n in nodes :: n.id,
           set n | n in nodes :: Sanitize(n.id),
           set n | n in nodes && n.Extension? :: n.number,
           set n | n in nodes && n.Extension? :: n.sipUser,
           set n | n in nodes && n.Extension? :: Sanitize(n.sipUser),
           set n | n in nodes && Mailbox(n).Some? :: Mailbox(n).value)
  }

  function IdIssues(n: Node, o: Owners): (r: seq<Issue>)
    ensures HasErrors(r) <==> n.id in o.ids || n.id == "" || Sanitize(n.id) in o.names || n.Trunk? || n.External?
    ensures !Reports(r, OVERLAP) && !Reports(r, COLLISION) && !Reports(r, NO_PASSWORD)
  {
    Plus(Err(n.id in o.ids, "duplicate-node-id", n.id),
         Plus(Err(n.id == "" || Sanitize(n.id) in o.names, "generated-node-name-collision", n.id),
              Err(n.Trunk? || n.External?, "disabled-node-type", n.id)))
  }

  predicate NumberTaken(n: Node, o: Owners)
    requires n.Extension?
  {
    !IsNumber(n.number) || n.number == "110" || n.number == "112" || n.number in o.numbers
  }

  /** The number overlaps the generated entry points of a topology with `count` nodes. */
  predicate InEntryRange(n: Node, count: nat)
    requires n.Extension?
  {
    IsNumber(n.number) && ENTRYPOINT_BASE <= DecimalValue(n.number) < ENTRYPOINT_BASE + count
  }

  function NumberIssues(n: Node, o: Owners, count: nat): (r: seq<Issue>)
    requires n.Extension?
    ensures HasErrors(r) <==> NumberTaken(n, o)
    ensures Reports(r, COLLISION) <==> !NumberTaken(n, o) && InEntryRange(n, count)
    ensures !Reports(r, OVERLAP) && !Reports(r, NO_PASSWORD)
  {
    if !IsNumber(n.number) then Err(true, "invalid-extension-number", n.id)
    else if n.number == "110" || n.number == "112" then Err(true, "reserved-emergency-number", n.id)
    else if n.number in o.numbers then Err(true, "duplicate-extension-number", n.id)
    else Warn(InEntryRange(n, count), COLLISION, n.id)
  }

  predicate SipTaken(n: Node, o: Owners)
    requires n.Extension?
  {
    !IsSipUser(n.sipUser) || n.sipUser in o.sipUsers || Sanitize(n.sipUser) in o.sipNames
  }

  /** An extension that neither brings a password nor has one stored. */
  ghost predicate CannotRegister(n: Node)
  {
    n.Extension? && (n.sipPassword == None || n.sipPassword == Some("")) && n.configured != Some(true)
  }

  function SipIssues(n: Node, o: Owners): (r: seq<Issue>)
    requires n.Extension?
    ensures HasErrors(r) <==> SipTaken(n, o)
    ensures Reports(r, NO_PASSWORD) <==> CannotRegister(n)
    ensures !Reports(r, OVERLAP) && !Reports(r, COLLISION)
  {
    Plus(Warn((n.sipPassword == None || n.sipPassword == Some("")) && n.configured != Some(true),
              NO_PASSWORD, n.id),
         if !IsSipUser(n.sipUser) then Err(true, "missing-sip-user", n.id)
         else if n.sipUser in o.sipUsers then Err(true, "duplicate-sip-user", n.id)
         else Err(Sanitize(n.sipUser) in o.sipNames, "generated-sip-name-collision", n.id))
  }

  predicate MailboxTaken(n: Node, o: Owners)
  {
    Mailbox(n).Some? && (!IsNumber(Mailbox(n).value) || Mailbox(n).value in o.mailboxes)
  }

  function MailboxIssues(n: Node, o: Owners): (r: seq<Issue>)
    ensures HasErrors(r) <==> MailboxTaken(n, o)
    ensures !Reports(r, OVERLAP) && !Reports(r, COLLISION) && !Reports(r, NO_PASSWORD)
  {
    match Mailbox(n)
    case None => []
    case Some(mailbox) =>
      if mailbox == "" then Err(true, "missing-mailbox", n.id)
      else if !AllDigits(mailbox) then Err(true, "invalid-mailbox", n.id)
      else Err(mailbox in o.mailboxes, "duplicate-mailbox", n.id)
  }

  function GreetingIssues(env: Environment, n: Node): (r: seq<Issue>)
    requires n.Ivr?
    ensures HasErrors(r) <==> !IsGreeting(n.greeting) || (env.sounds.Some? && n.greeting !in env.sounds.value)
    ensures !Reports(r, OVERLAP) && !Reports(r, COLLISION) && !Reports(r, NO_PASSWORD)
  {
    Plus(Err(n.greeting == "", "ivr-missing-greeting", n.id),
         Plus(Err(n.greeting != "" && !IsGreeting(n.greeting), "ivr-invalid-greeting", n.id),
              Err(n.greeting != "" && env.sounds.Some? && n.greeting !in env.sounds.value,
                  "ivr-greeting-not-found", n.id)))
  }

  function IvrIssues(env: Environment, n: Node): (r: seq<Issue>)
    requires n.Ivr?
    ensures HasErrors(r) <==> !IvrOk(env, n)
    ensures !Reports(r, OVERLAP) && !Reports(r, COLLISION) && !Reports(r, NO_PASSWORD)
  {
    Plus(GreetingIssues(env, n),
         Plus(Err(!WholeBetween(n.timeout, 1.0, 120.0), "ivr-invalid-timeout", n.id),
              Err(n.invalidRetries < 1.0, "ivr-invalid-retries", n.id)))
  }

  function GroupIssues(n: Node): (r: seq<Issue>)
    ensures HasErrors(r) <==> (n.RingGroup? && !RingGroupOk(n)) || (n.Queue? && !QueueOk(n))
    ensures !Reports(r, OVERLAP) && !Reports(r, COLLISION) && !Reports(r, NO_PASSWORD)
  {
    match n
    case RingGroup(_, strategy, ringTimeout) =>
      Plus(Err(strategy !in RING_STRATEGIES, "invalid-ring-strategy", n.id),
           Err(!WholeBetween(ringTimeout, 1.0, 300.0), "invalid-ring-timeout", n.id))
    case Queue(_, strategy, timeout, maxWaitTime, joinEmpty, leaveWhenEmpty) =>
      Plus(Err(strategy !in RING_STRATEGIES && strategy != "rrmemory", "invalid-queue-strategy", n.id),
           Plus(Err(joinEmpty !in ["yes", "no", "strict"] || leaveWhenEmpty !in ["yes", "no"],
                    "invalid-queue-empty-policy", n.id),
                Err(!WholeBetween(timeout, 1.0, 300.0) || !WholeBetween(maxWaitTime, 1.0, 3600.0),
                    "invalid-queue-timeout", n.id)))
    case _ => []
  }

  /** What one round of the loop adds to the owner maps: nothing that is invalid or already owned. */
  function Claim(n: Node, o: Owners): Owners
  {
    Owners(
      o.ids + {n.id},
      if n.id == "" then o.names else o.names + {Sanitize(n.id)},
      if n.Extension? && !NumberTaken(n, o) then o.numbers + {n.number} else o.numbers,
      if n.Extension? && IsSipUser(n.sipUser) then o.sipUsers + {n.sipUser} else o.sipUsers,
      if n.Extension? && !SipTaken(n, o) then o.sipNames + {Sanitize(n.sipUser)} else o.sipNames,
      if Mailbox(n).Some? && !MailboxTaken(n, o) then o.mailboxes + {Mailbox(n).value} else o.mailboxes)
  }

  ghost predicate Clashes(n: Node, o: Owners)
  {
    || n.id in o.ids || Sanitize(n.id) in o.names
    || (n.Extension? && (n.number in o.numbers || n.sipUser in o.sipUsers || Sanitize(n.sipUser) in o.sipNames))
    || (Mailbox(n).Some? && Mailbox(n).value in o.mailboxes)
  }

  lemma ClashesIffNotApart(nodes: seq<Node>, n: Node)
    ensures Clashes(n, OwnersOf(nodes)) <==> exists i :: 0 <= i < |nodes| && !Apart(nodes[i], n)
  {
    var o := OwnersOf(nodes);
    if n.id in o.ids {
      var m :| m in nodes && m.id == n.id;
      assert !Apart(m, n);
    }
    if Sanitize(n.id) in o.names {
      var m :| m in nodes && Sanitize(m.id) == Sanitize(n.id);
      assert !Apart(m, n);
    }
    if n.Extension? && n.number in o.numbers {
      var m :| m in nodes && m.Extension? && m.number == n.number;
      assert !Apart(m, n);
    }
    if n.Extension? && n.sipUser in o.sipUsers {
      var m :| m in nodes && m.Extension? && m.sipUser == n.sipUser;
      assert !Apart(m, n);
    }
    if n.Extension? && Sanitize(n.sipUser) in o.sipNames {
      var m :| m in nodes && m.Extension? && Sanitize(m.sipUser) == Sanitize(n.sipUser);
      assert !Apart(m, n);
    }
    if Mailbox(n).Some? && Mailbox(n).value in o.mailboxes {
      var m :| m in nodes && Mailbox(m).Some? && Mailbox(m).value == Mailbox(n).value;
      assert !Apart(m, n);
    }
    if i :| 0 <= i < |nodes| && !Apart(nodes[i], n) {
      assert nodes[i] in nodes;
    }
  }

  lemma NodesOkSnoc(env: Environment, nodes: seq<Node>, n: Node)
    ensures NodesOk(env, nodes + [n]) <==> NodesOk(env, nodes) && NodeOk(env, n) && !Clashes(n, OwnersOf(nodes))
    ensures NodesOk(env, nodes + [n]) ==> Claim(n, OwnersOf(nodes)) == OwnersOf(nodes + [n])
  {
    var all := nodes + [n];
    ClashesIffNotApart(nodes, n);
    assert forall i | 0 <= i < |nodes| :: all[i] == nodes[i];
    assert all[|nodes|] == n;
    if NodeOk(env, n) && !Clashes(n, OwnersOf(nodes)) {
      ClaimSnoc(env, nodes, n);
    }
  }

  /** While no error has been found, the owner maps hold exactly the claims of the nodes seen. */
  lemma ClaimSnoc(env: Environment, nodes: seq<Node>, n: Node)
    requires NodeOk(env, n) && !Clashes(n, OwnersOf(nodes))
    ensures Claim(n, OwnersOf(nodes)) == OwnersOf(nodes + [n])
  {
    var all := nodes + [n];
    assert forall m :: m in all <==> m in nodes || m == n;
  }

  ghost predicate SomeInEntryRange(nodes: seq<Node>, count: nat)
  {
    exists n :: n in nodes && n.Extension? && InEntryRange(n, count)
  }

  /** The issues of one node. */
  method CheckNode(env: Environment, n: Node, o: Owners, count: nat) returns (issues: seq<Issue>)
    ensures HasErrors(issues) <==> !NodeOk(env, n) || Clashes(n, o)
    ensures !HasErrors(issues) ==> (Reports(issues, COLLISION) <==> n.Extension? && InEntryRange(n, count))
    ensures Reports(issues, NO_PASSWORD) <==> CannotRegister(n)
  {
    issues := IdIssues(n, o);
    if n.Extension? {
      issues := Plus(issues, Plus(NumberIssues(n, o, count), SipIssues(n, o)));
    }
    issues := Plus(issues, MailboxIssues(n, o));
    if n.Ivr? {
      issues := Plus(issues, IvrIssues(env, n));
    }
    if n.Schedule? {
      var scheduleIssues := ValidateScheduleNode(env, n);
      issues := Plus(issues, scheduleIssues);
    }
    issues := Plus(issues, GroupIssues(n));
  }

  /**
   * Accepted exactly when every node obeys its rules and no two nodes clash; an accepted topology
   * gets the collision warning exactly when some extension number lies among the entry points. Any
   * topology gets the password warning exactly when some extension cannot register.
   */
  method ValidateNodes(env: Environment, t: Topology) returns (issues: seq<Issue>)
    ensures HasErrors(issues) <==> !NodesOk(env, t.nodes)
    ensures !HasErrors(issues) ==> (Reports(issues, COLLISION) <==> SomeInEntryRange(t.nodes, |t.nodes|))
    ensures Reports(issues, NO_PASSWORD) <==> exists n :: n in t.nodes && CannotRegister(n)
  {
    issues := [];
    var owners := NONE;
    var k := 0;
    TracksNothing(env, |t.nodes|);
    assert t.nodes[..0] == [];
    while k < |t.nodes|
      invariant 0 <= k <= |t.nodes|
      invariant Tracks(env, t.nodes[..k], issues, owners, |t.nodes|)
    {
      var n := t.nodes[k];
      assert t.nodes[..k + 1] == t.nodes[..k] + [n];
      var nodeIssues := CheckNode(env, n, owners, |t.nodes|);
      TracksSnoc(env, t.nodes[..k], n, issues, nodeIssues, owners, |t.nodes|);
      issues := Plus(issues, nodeIssues);
      owners := Claim(n, owners);
      k := k + 1;
    }
    assert t.nodes[..k] == t.nodes;
  }

  /** What the loop of validateNodes knows about the nodes it has seen. */
  ghost predicate Tracks(env: Environment, nodes: seq<Node>, issues: seq<Issue>, o: Owners, count: nat)
  {
    && (HasErrors(issues) <==> !NodesOk(env, nodes))
    && (Reports(issues, NO_PASSWORD) <==> exists n :: n in nodes && CannotRegister(n))
    && (!HasErrors(issues) ==> o == OwnersOf(nodes) && (Reports(issues, COLLISION) <==> SomeInEntryRange(nodes, count)))
  }

  lemma TracksNothing(env: Environment, count: nat)
    ensures Tracks(env, [], [], NONE, count)
  {
    assert OwnersOf([]) == NONE;
  }

  lemma TracksSnoc(env: Environment, nodes: seq<Node>, n: Node, issues: seq<Issue>, more: seq<Issue>, o: Owners,
                   count: nat)
    requires Tracks(env, nodes, issues, o, count)
    requires HasErrors(more) <==> !NodeOk(env, n) || Clashes(n, o)
    requires !HasErrors(more) ==> (Reports(more, COLLISION) <==> n.Extension? && InEntryRange(n, count))
    requires Reports(more, NO_PASSWORD) <==> CannotRegister(n)
    ensures Tracks(env, nodes + [n], Plus(issues, more), Claim(n, o), count)
  {
    NodesOkSnoc(env, nodes, n);
    RangeSnoc(nodes, n, count);
    assert forall m :: m in nodes + [n] <==> m in nodes || m == n;
  }

  lemma RangeSnoc(nodes: seq<Node>, n: Node, count: nat)
    ensures SomeInEntryRange(nodes + [n], count)
            <==> SomeInEntryRange(nodes, count) || (n.Extension? && InEntryRange(n, count))
  {
    var all := nodes + [n];
    assert forall m :: m in all <==> m in nodes || m == n;
  }
}
