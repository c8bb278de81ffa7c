/** generateExtensionsConf and its parts (backend/src/asterisk/configGenerator.ts), emitting dialplan entries. */
module Generator {
  import opened Text
  import opened Topologies
  import opened Schedules
  import opened Dialplans
  import opened NodeRules

  function NodeName(id: string): string { "node_" + Sanitize(id) }

  function IvrContext(id: string): string { "ivr_" + Sanitize(id) }

  function RetryVar(id: string): string { "RETRY_" + Sanitize(id) }

  function ToNode(id: string): Target { Target(CALLFLOW, NodeName(id), Priority(1)) }

  function Line(app: App): Step { Step("", app) }

  function Device(ext: Node): string
    requires ext.Extension?
  {
    "PJSIP/" + Sanitize(ext.sipUser)
  }

  // ---------------------------------------------------------------- edges and members

  /** `edges.find((e) => e.condition?.type === type)` */
  function FirstWith(edges: seq<Edge>, c: Condition): (r: Option<Edge>)
    ensures r.Some? ==> r.value in edges && r.value.condition == Some(c)
    ensures r.None? ==> forall e | e in edges :: e.condition != Some(c)
  {
    if edges == [] then None
    else if edges[0].condition == Some(c) then Some(edges[0])
    else FirstWith(edges[1..], c)
  }

  predicate IsFallback(e: Edge)
  {
    e.condition == Some(Timeout) || e.condition == Some(Unconditional) || e.condition == None
  }

  function FallbackEdge(edges: seq<Edge>): (r: Option<Edge>)
    ensures r.Some? ==> r.value in edges && IsFallback(r.value)
    ensures r.None? ==> forall e | e in edges :: !IsFallback(e)
  {
    if edges == [] then None
    else if IsFallback(edges[0]) then Some(edges[0])
    else FallbackEdge(edges[1..])
  }

  datatype Member = Member(position: real, ext: Node)

  /** Memberships of the group whose member is an extension, in stored order. */
  function MembersStored(t: Topology, ms: seq<Membership>, groupId: string): (r: seq<Member>)
    ensures forall x | x in r :: x.ext.Extension?
  {
    if ms == [] then []
    else
      var node := NodeById(t, ms[0].memberId);
      var position := if ms[0].position.Some? then ms[0].position.value else 0.0;
      if ms[0].groupId == groupId && node.Some? && node.value.Extension? then
        [Member(position, node.value)] + MembersStored(t, ms[1..], groupId)
      else MembersStored(t, ms[1..], groupId)
  }

  function InsertMember(x: Member, sorted: seq<Member>): (r: seq<Member>)
    ensures |r| == |sorted| + 1 && forall y :: y in r <==> y == x || y in sorted
  {
    if sorted == [] || x.position <= sorted[0].position then [x] + sorted
    else
      assert forall y :: y in sorted <==> y == sorted[0] || y in sorted[1..];
      [sorted[0]] + InsertMember(x, sorted[1..])
  }

  /** The stable sort by position. */
  function SortMembers(ms: seq<Member>): (r: seq<Member>)
    ensures |r| == |ms| && forall y :: y in r <==> y in ms
  {
    if ms == [] then []
    else
      assert forall y :: y in ms <==> y == ms[0] || y in ms[1..];
      InsertMember(ms[0], SortMembers(ms[1..]))
  }

  function MembersOf(t: Topology, groupId: string): (r: seq<Member>)
    ensures forall x | x in r :: x.ext.Extension?
  {
    SortMembers(MembersStored(t, t.memberships, groupId))
  }

  function Devices(members: seq<Member>): (r: seq<string>)
    requires forall x | x in members :: x.ext.Extension?
    ensures |r| == |members| && forall i | 0 <= i < |r| :: r[i] == Device(members[i].ext)
  {
    if members == [] then [] else [Device(members[0].ext)] + Devices(members[1..])
  }

  function DialEach(devices: seq<string>, seconds: real): (r: seq<Step>)
    ensures |r| == |devices| && forall i | 0 <= i < |r| :: r[i] == Line(Dial([devices[i]], seconds))
  {
    if devices == [] then [] else [Line(Dial([devices[0]], seconds))] + DialEach(devices[1..], seconds)
  }

  /** Ring all at once, or one after another in position order. */
  function RingGroupDialLines(t: Topology, rg: Node): seq<Step>
    requires rg.RingGroup?
  {
    var devices := Devices(MembersOf(t, rg.id));
    if devices == [] then [Line(NoOp)]
    else if rg.strategy == "ringall" then [Line(Dial(devices, rg.ringTimeout))]
    else DialEach(devices, rg.ringTimeout)
  }

  // ---------------------------------------------------------------- entries of the callflow context

  function Finish(fallback: Option<Edge>, mailbox: string): seq<Step>
  {
    (if fallback.Some? then [Line(Goto(ToNode(fallback.value.target)))]
     else if mailbox != "" then [Line(VoiceMail(mailbox))]
     else [])
    + [Line(Hangup)]
  }

  function OwnMailbox(ext: Node): string
    requires ext.Extension?
  {
    if ext.voicemail.Some? && ext.voicemail.value.enabled then ext.voicemail.value.mailbox else ""
  }

  /** Times and weekdays the schedule translation can read; validation rejects the rest. */
  ghost predicate Translatable(n: Node) { n.Schedule? ==> ValidWindows(n.windows) }

  ghost predicate Compilable(t: Topology) { forall n | n in t.nodes :: Translatable(n) }

  function FollowingDays(days: seq<int>): (r: seq<int>)
    ensures |r| == |days| && forall i | 0 <= i < |r| :: r[i] == NextDay(days[i])
  {
    if days == [] then [] else [NextDay(days[0])] + FollowingDays(days[1..])
  }

  function HolidaySteps(holidays: seq<string>, timezone: string, closed: Target): (r: seq<Step>)
    ensures |r| == |holidays| && forall i | 0 <= i < |r| :: r[i] == Line(GotoIfDate(timezone, holidays[i], closed))
  {
    if holidays == [] then []
    else [Line(GotoIfDate(timezone, holidays[0], closed))] + HolidaySteps(holidays[1..], timezone, closed)
  }

  function WindowStepsOf(w: Window, timezone: string, open: Target): seq<Step>
    requires ValidWindow(w)
  {
    var start, end := Minutes(w.start), Minutes(w.end);
    if start < end then
      [Line(GotoIfTime(start, PreviousMinute(end), w.weekdays, timezone, open))]
    else
      [Line(GotoIfTime(start, DAY - 1, w.weekdays, timezone, open)),
       Line(GotoIfTime(0, PreviousMinute(end), FollowingDays(w.weekdays), timezone, open))]
  }

  function WindowSteps(windows: seq<Window>, timezone: string, open: Target): seq<Step>
    requires ValidWindows(windows)
  {
    if windows == [] then []
    else WindowStepsOf(windows[0], timezone, open) + WindowSteps(windows[1..], timezone, open)
  }

  function ScheduleBody(n: Node, open: Target, closed: Target): seq<Step>
    requires n.Schedule? && ValidWindows(n.windows)
  {
    HolidaySteps(n.holidays, n.timezone, closed) + WindowSteps(n.windows, n.timezone, open) + [Line(Goto(closed))]
  }

  function ScheduleSteps(t: Topology, n: Node): seq<Step>
    requires n.Schedule? && ValidWindows(n.windows)
  {
    var edges := Outgoing(t, n.id);
    var open, closed := FirstWith(edges, Open), FirstWith(edges, Closed);
    if open.None? || closed.None? then [Line(NoOp), Line(Hangup)]
    else [Line(NoOp)] + ScheduleBody(n, ToNode(open.value.target), ToNode(closed.value.target))
  }

  /** The steps of a node's callflow entry; trunk and external nodes get none. */
  function CallflowSteps(t: Topology, n: Node): Option<seq<Step>>
    requires Translatable(n)
  {
    var fallback := FallbackEdge(Outgoing(t, n.id));
    match n
    case Ivr(id, _, _, _) => Some([Line(NoOp), Line(Goto(Target(IvrContext(id), "s", Priority(1))))])
    case Extension(_, _, _, _, _, _) =>
      Some([Line(NoOp), Line(Dial([Device(n)], 20.0))] + Finish(fallback, OwnMailbox(n)))
    case RingGroup(_, _, _) => Some([Line(NoOp)] + RingGroupDialLines(t, n) + Finish(fallback, ""))
    case Queue(id, _, _, maxWaitTime, _, _) =>
      Some([Line(NoOp), Line(EnterQueue(Sanitize(id), maxWaitTime))] + Finish(fallback, ""))
    case Schedule(_, _, _, _) => Some(ScheduleSteps(t, n))
    case VoicemailBox(_, mailbox) => Some([Line(NoOp), Line(VoiceMail(mailbox)), Line(Hangup)])
    case _ => None
  }

  function CallflowEntry(t: Topology, n: Node): seq<Entry>
    requires Translatable(n)
  {
    match CallflowSteps(t, n)
    case None => []
    case Some(steps) => [Entry(CALLFLOW, NodeName(n.id), steps)]
  }

  // ---------------------------------------------------------------- one context per IVR

  function KeyEntries(context: string, edges: seq<Edge>): seq<Entry>
  {
    if edges == [] then []
    else match edges[0].condition
         case Some(Digit(value)) =>
           [Entry(context, value, [Line(Goto(ToNode(edges[0].target)))])] + KeyEntries(context, edges[1..])
         case _ => KeyEntries(context, edges[1..])
  }

  function StartSteps(n: Node): seq<Step>
    requires n.Ivr?
  {
    [Line(NoOp), Line(SetZero(RetryVar(n.id))), Step("menu", Background(n.greeting)), Line(WaitExten(n.timeout))]
  }

  function TimeoutSteps(edges: seq<Edge>): seq<Step>
  {
    var e := FirstWith(edges, Timeout);
    [Line(NoOp), Line(if e.Some? then Goto(ToNode(e.value.target)) else Hangup)]
  }

  function InvalidSteps(n: Node, edges: seq<Edge>): seq<Step>
    requires n.Ivr?
  {
    var e, context := FirstWith(edges, Invalid), IvrContext(n.id);
    [Line(Increment(RetryVar(n.id))), Line(Playback("invalid")),
     Line(GotoIfAtLeast(RetryVar(n.id), n.invalidRetries,
                        if e.Some? then ToNode(e.value.target) else Target(context, "giveup", Priority(1)))),
     Line(Goto(Target(context, "s", Labelled("menu"))))]
  }

  function IvrEntries(t: Topology, n: Node): seq<Entry>
    requires n.Ivr?
  {
    var context, edges := IvrContext(n.id), Outgoing(t, n.id);
    [Entry(context, "s", StartSteps(n))] + KeyEntries(context, edges)
    + [Entry(context, "t", TimeoutSteps(edges)), Entry(context, "i", InvalidSteps(n, edges)),
       Entry(context, "giveup", [Line(Hangup)])]
  }

  // ---------------------------------------------------------------- the whole file

  function InternalSteps(t: Topology, n: Node): seq<Step>
    requires n.Extension?
  {
    var fallback := FallbackEdge(Outgoing(t, n.id));
    [Line(NoOp), Line(Dial([Device(n)], 20.0))]
    + (if fallback.Some? then [Line(Goto(ToNode(fallback.value.target)))]
       else if n.voicemail.Some? && n.voicemail.value.enabled then [Line(VoiceMail(n.voicemail.value.mailbox))]
       else [])
    + [Line(Hangup)]
  }

  function InternalEntries(t: Topology, nodes: seq<Node>): seq<Entry>
  {
    if nodes == [] then []
    else (if nodes[0].Extension? then [Entry("internal", nodes[0].number, InternalSteps(t, nodes[0]))] else [])
         + InternalEntries(t, nodes[1..])
  }

  function EntryPoints(nodes: seq<Node>, first: nat): seq<Entry>
  {
    if nodes == [] then []
    else [Entry("entrypoints", Decimal(first), [Line(Goto(ToNode(nodes[0].id)))])] + EntryPoints(nodes[1..], first + 1)
  }

  function CallflowEntries(t: Topology, nodes: seq<Node>): seq<Entry>
    requires forall n | n in nodes :: Translatable(n)
  {
    if nodes == [] then [] else CallflowEntry(t, nodes[0]) + CallflowEntries(t, nodes[1..])
  }

  function AllIvrEntries(t: Topology, nodes: seq<Node>): seq<Entry>
  {
    if nodes == [] then []
    else (if nodes[0].Ivr? then IvrEntries(t, nodes[0]) else []) + AllIvrEntries(t, nodes[1..])
  }

  function ExtensionsConf(t: Topology): Dialplan
    requires Compilable(t)
  {
    Dialplan(InternalEntries(t, t.nodes) + EntryPoints(t.nodes, ENTRYPOINT_BASE)
             + CallflowEntries(t, t.nodes) + AllIvrEntries(t, t.nodes),
             [("internal", "entrypoints")])
  }
}
