/**
 * The meaning of a topology, independent of any dialplan: where a call is in the graph and what
 * happens to it next (docs/domain-model.md, docs/asterisk-mapping.md).
 */
module Callflow {
  import opened Text
  import opened Topologies
  import opened Schedules
  import opened Dialplans
  import opened Generator
  import opened ScheduleTranslation

  datatype Place =
    | Arriving(id: string)                  // about to enter a node
    | Ringing(id: string, attempt: nat)     // about to place an attempt to reach somebody
    | Queueing(id: string)                  // about to join a queue
    | GivingUp(id: string)                  // nobody was reached
    | Greeting(id: string, invalid: nat)    // about to hear the menu, after `invalid` wrong keys
    | Choosing(id: string, invalid: nat)    // asked for a key
    | Rejecting(id: string, invalid: nat)   // pressed a key the menu does not offer
    | Recording(mailbox: string)
    | Leaving                               // about to be hung up
    | Gone

  /** A call: its place, the time, what is still to happen to it, what it did, and the edges it took. */
  datatype Call = Call(place: Place, clock: Clock, inbox: seq<Event>, trace: seq<Action>, taken: seq<Edge>)
  {
    function Says(a: Action): Call { this.(trace := trace + [a]) }

    function Goes(p: Place): Call { this.(place := p) }

    function Hears(): Call
      requires inbox != []
    {
      this.(clock := inbox[0].clock, inbox := inbox[1..])
    }

    function Follows(e: Edge): Call { this.(place := Arriving(e.target), taken := taken + [e]) }

    function FollowsOrLeaves(e: Option<Edge>): Call { if e.Some? then Follows(e.value) else Goes(Leaving) }
  }

  /** Opening hours as documented by the evaluator, or as the generated clauses decide them. */
  datatype OpeningRule = Documented | AsCompiled

  predicate Opens(rule: OpeningRule, n: Node, m: Moment)
    requires n.Schedule? && ValidWindows(n.windows)
  {
    if rule == Documented then IsScheduleOpen(n, m) else CompiledOpen(n, m)
  }

  datatype Attempt = Attempt(devices: seq<string>, seconds: real)

  function AttemptEach(devices: seq<string>, seconds: real): (r: seq<Attempt>)
    ensures |r| == |devices| && forall i | 0 <= i < |r| :: r[i] == Attempt([devices[i]], seconds)
  {
    if devices == [] then [] else [Attempt([devices[0]], seconds)] + AttemptEach(devices[1..], seconds)
  }

  /** Whom a node rings: an extension its phone, a group all members at once or each in turn. */
  function Attempts(t: Topology, n: Node): seq<Attempt>
  {
    match n
    case Extension(_, _, _, _, _, _) => [Attempt([Device(n)], 20.0)]
    case RingGroup(id, strategy, ringTimeout) =>
      var devices := Devices(MembersOf(t, id));
      if strategy == "ringall" then (if devices == [] then [] else [Attempt(devices, ringTimeout)])
      else AttemptEach(devices, ringTimeout)
    case _ => []
  }

  /** The edge of an IVR for a pressed key. */
  function KeyEdge(edges: seq<Edge>, key: Key): (r: Option<Edge>)
    ensures r.Some? ==> r.value in edges && r.value.condition == Some(Digit([key]))
  {
    FirstWith(edges, Digit([key]))
  }

  function Arrive(t: Topology, rule: OpeningRule, c: Call, n: Node): Call
    requires Translatable(n)
  {
    match n
    case Extension(id, _, _, _, _, _) => c.Goes(Ringing(id, 0))
    case RingGroup(id, _, _) => c.Goes(if Attempts(t, n) == [] then GivingUp(id) else Ringing(id, 0))
    case Queue(id, _, _, _, _, _) => c.Goes(Queueing(id))
    case Ivr(id, _, _, _) => c.Goes(Greeting(id, 0))
    case Schedule(id, timezone, _, _) =>
      c.FollowsOrLeaves(FirstWith(Outgoing(t, id), if Opens(rule, n, c.clock(timezone)) then Open else Closed))
    case VoicemailBox(_, mailbox) => c.Goes(Recording(mailbox))
    case _ => c.Goes(Gone)
  }

  /** Nobody was reached: take the only outgoing edge, else leave a message if possible, else hang up. */
  function GiveUp(t: Topology, c: Call, n: Node): Call
  {
    if Outgoing(t, n.id) != [] then c.Follows(Outgoing(t, n.id)[0])
    else if n.Extension? && n.voicemail.Some? && n.voicemail.value.enabled then
      c.Says(Recorded(n.voicemail.value.mailbox)).Goes(Leaving)
    else c.Says(HungUp).Goes(Gone)
  }

  function Choose(t: Topology, c: Call, n: Node, invalid: nat, o: Outcome): Call
    requires n.Ivr?
  {
    var edges := Outgoing(t, n.id);
    match o
    case CallerGone => c.Goes(Gone)
    case Pressed(key) =>
      var e := KeyEdge(edges, key);
      if e.Some? then c.Follows(e.value) else c.Goes(Rejecting(n.id, invalid))
    case _ => c.FollowsOrLeaves(FirstWith(edges, Timeout))
  }

  function Reject(t: Topology, c: Call, n: Node, invalid: nat): Call
    requires n.Ivr?
  {
    if (invalid + 1) as real >= n.invalidRetries then c.FollowsOrLeaves(FirstWith(Outgoing(t, n.id), Invalid))
    else c.Goes(Greeting(n.id, invalid + 1))
  }

  predicate EndsCall(o: Outcome) { o.Answered? || o.CallerGone? }

  /** What an attempt makes of a call: nothing yet, its end, or the place where it goes on. */
  function AfterAttempt(c: Call, a: Attempt, next: Place): Call
  {
    if c.inbox == [] then c
    else
      var o := c.inbox[0].outcome;
      c.Hears().Says(Dialled(a.devices, a.seconds, o)).Goes(if EndsCall(o) then Gone else next)
  }

  /** After a vain attempt comes the next one, or the steps for when nobody was reached. */
  function NextRing(t: Topology, n: Node, k: nat): (p: Place)
    ensures (p.Ringing? || p.GivingUp?) && p.id == n.id
  {
    if k + 1 < |Attempts(t, n)| then Ringing(n.id, k + 1) else GivingUp(n.id)
  }

  function Ring(t: Topology, c: Call, n: Node, k: nat): Call
  {
    if k >= |Attempts(t, n)| then c.Goes(Gone) else AfterAttempt(c, Attempts(t, n)[k], NextRing(t, n, k))
  }

  /** One step of a call; a call that has to wait stays where it is while nothing happens. */
  function Advance(t: Topology, rule: OpeningRule, c: Call): Call
    requires Compilable(t)
  {
    match c.place
    case Gone => c
    case Leaving => c.Says(HungUp).Goes(Gone)
    case Recording(mailbox) => c.Says(Recorded(mailbox)).Goes(Leaving)
    case Arriving(id) =>
      var n := NodeById(t, id);
      if n.None? then c.Goes(Gone) else Arrive(t, rule, c.Says(Entered(NodeName(id))), n.value)
    case Ringing(id, k) =>
      var n := NodeById(t, id);
      if n.None? then c.Goes(Gone) else Ring(t, c, n.value, k)
    case Queueing(id) =>
      var n := NodeById(t, id);
      if n.None? || !n.value.Queue? then c.Goes(Gone)
      else if c.inbox == [] then c
      else
        var o := c.inbox[0].outcome;
        c.Hears().Says(Queued(Sanitize(id), n.value.maxWaitTime, o)).Goes(if EndsCall(o) then Gone else GivingUp(id))
    case GivingUp(id) =>
      var n := NodeById(t, id);
      if n.None? then c.Goes(Gone) else GiveUp(t, c, n.value)
    case Greeting(id, k) =>
      var n := NodeById(t, id);
      if n.None? || !n.value.Ivr? then c.Goes(Gone) else c.Says(Prompted(n.value.greeting)).Goes(Choosing(id, k))
    case Choosing(id, k) =>
      var n := NodeById(t, id);
      if n.None? || !n.value.Ivr? then c.Goes(Gone)
      else if c.inbox == [] then c
      else
        var o := c.inbox[0].outcome;
        Choose(t, c.Hears().Says(Asked(n.value.timeout, o)), n.value, k, o)
    case Rejecting(id, k) =>
      var n := NodeById(t, id);
      if n.None? || !n.value.Ivr? then c.Goes(Gone) else Reject(t, c.Says(Played("invalid")), n.value, k)
  }

  function AdvanceN(t: Topology, rule: OpeningRule, c: Call, n: nat): Call
    requires Compilable(t)
    decreases n
  {
    if n == 0 then c else AdvanceN(t, rule, Advance(t, rule, c), n - 1)
  }
}
