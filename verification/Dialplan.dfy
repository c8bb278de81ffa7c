/** A dialplan and the small-step machine that executes it, driven by what callers and phones do. */
module Dialplans {
  import opened Text
  import opened Schedules

  // ---------------------------------------------------------------- programs

  datatype Point = Priority(n: nat) | Labelled(name: string)

  datatype Target = Target(context: string, exten: string, point: Point)

  datatype App =
    | NoOp
    | SetZero(name: string)                       // Set(NAME=0)
    | Increment(name: string)                     // Set(NAME=$[0${NAME} + 1])
    | Background(prompt: string)
    | Playback(prompt: string)
    | WaitExten(seconds: real)
    | Goto(target: Target)
    | GotoIfAtLeast(name: string, limit: real, target: Target)
    | GotoIfDate(timezone: string, date: string, target: Target)
    | GotoIfTime(from: nat, until: nat, weekdays: seq<int>, timezone: string, target: Target)
    | Dial(devices: seq<string>, seconds: real)
    | EnterQueue(name: string, seconds: real)
    | VoiceMail(mailbox: string)
    | Hangup

  datatype Step = Step(tag: string, app: App)

  /** `exten => exten,1,...` followed by its `same => n,...` lines. */
  datatype Entry = Entry(context: string, exten: string, steps: seq<Step>)

  datatype Dialplan = Dialplan(entries: seq<Entry>, includes: seq<(string, string)>)

  /** Asterisk keeps the first definition of an extension and ignores later ones. */
  function FindEntry(entries: seq<Entry>, context: string, exten: string): Option<seq<Step>>
  {
    if entries == [] then None
    else if entries[0].context == context && entries[0].exten == exten then Some(entries[0].steps)
    else FindEntry(entries[1..], context, exten)
  }

  /** An extension not defined in a context is looked for in the contexts it includes. */
  function FindIncluded(dp: Dialplan, includes: seq<(string, string)>, context: string,
                        exten: string): Option<seq<Step>>
  {
    if includes == [] then None
    else if includes[0].0 == context && FindEntry(dp.entries, includes[0].1, exten).Some? then
      FindEntry(dp.entries, includes[0].1, exten)
    else FindIncluded(dp, includes[1..], context, exten)
  }

  function StepsOf(dp: Dialplan, context: string, exten: string): Option<seq<Step>>
  {
    var own := FindEntry(dp.entries, context, exten);
    if own.Some? then own else FindIncluded(dp, dp.includes, context, exten)
  }

  // ---------------------------------------------------------------- what happens outside

  type LocalMoment = m: Moment | ValidMoment(m) witness Moment("", 1, 0)

  /** The local date and time an instant has in each time zone. */
  type Clock = string -> LocalMoment

  const KEYS := "0123456789*#ABCD"

  type Key = c: char | c in KEYS witness '0'

  /** How a wait ends: somebody answers, nobody does, a key is pressed, nothing is, the caller hangs up. */
  datatype Outcome = Answered | Unanswered | Pressed(key: Key) | Silence | CallerGone

  /** Time passes only while the machine waits. */
  datatype Event = Event(outcome: Outcome, clock: Clock)

  // ---------------------------------------------------------------- the machine

  datatype Action =
    | Entered(name: string)
    | Dialled(devices: seq<string>, seconds: real, outcome: Outcome)
    | Queued(name: string, seconds: real, outcome: Outcome)
    | Prompted(prompt: string)
    | Asked(seconds: real, outcome: Outcome)
    | Played(prompt: string)
    | Recorded(mailbox: string)
    | HungUp

  datatype Cursor = Running(context: string, exten: string, priority: nat) | Ended

  datatype Machine = Machine(at: Cursor, vars: map<string, nat>, clock: Clock, inbox: seq<Event>, trace: seq<Action>)
  {
    function Says(a: Action): Machine { this.(trace := trace + [a]) }

    function Goes(c: Cursor): Machine { this.(at := c) }

    function Next(): Machine
      requires at.Running?
    {
      this.(at := at.(priority := at.priority + 1))
    }

    /** Consumes the next event. */
    function Hears(): Machine
      requires inbox != []
    {
      this.(clock := inbox[0].clock, inbox := inbox[1..])
    }
  }

  const CALLFLOW := "callflow"

  function Value(vars: map<string, nat>, name: string): nat { if name in vars then vars[name] else 0 }

  /** A time range includes both of its end minutes and may wrap around midnight. */
  predicate InTimeRange(from: nat, until: nat, minute: nat)
  {
    if from <= until then from <= minute <= until else minute >= from || minute <= until
  }

  predicate TimeMatches(from: nat, until: nat, weekdays: seq<int>, m: Moment)
  {
    InTimeRange(from, until, m.minute) && m.weekday in weekdays
  }

  function FindTag(steps: seq<Step>, tag: string): Option<nat>
  {
    if steps == [] then None
    else if steps[0].tag == tag then Some(0)
    else
      var r := FindTag(steps[1..], tag);
      if r.None? then None else Some(r.value + 1)
  }

  /** Where a jump lands; a label that is not there ends the call. */
  function Resolve(dp: Dialplan, t: Target): Cursor
  {
    match t.point
    case Priority(n) => Running(t.context, t.exten, n)
    case Labelled(name) =>
      match StepsOf(dp, t.context, t.exten)
      case None => Ended
      case Some(steps) =>
        var k := FindTag(steps, name);
        if k.None? then Ended else Running(t.context, t.exten, k.value + 1)
  }

  function Fetch(dp: Dialplan, c: Cursor): Option<App>
  {
    match c
    case Ended => None
    case Running(context, exten, priority) =>
      match StepsOf(dp, context, exten)
      case None => None
      case Some(steps) => if 1 <= priority <= |steps| then Some(steps[priority - 1].app) else None
  }

  /** Where a pressed key leads: its extension in the same context, else the invalid extension. */
  function KeyCursor(dp: Dialplan, context: string, key: Key): Cursor
  {
    if StepsOf(dp, context, [key]).Some? then Running(context, [key], 1) else Running(context, "i", 1)
  }

  function Execute(dp: Dialplan, m: Machine, app: App): Machine
    requires m.at.Running?
  {
    match app
    case NoOp =>
      if m.at.context == CALLFLOW && m.at.priority == 1 then m.Next().Says(Entered(m.at.exten)) else m.Next()
    case SetZero(name) => m.Next().(vars := m.vars[name := 0])
    case Increment(name) => m.Next().(vars := m.vars[name := Value(m.vars, name) + 1])
    case Background(prompt) => m.Next().Says(Prompted(prompt))
    case Playback(prompt) => m.Next().Says(Played(prompt))
    case Goto(t) => m.Goes(Resolve(dp, t))
    case GotoIfAtLeast(name, limit, t) =>
      if Value(m.vars, name) as real >= limit then m.Goes(Resolve(dp, t)) else m.Next()
    case GotoIfDate(timezone, date, t) =>
      if m.clock(timezone).date == date then m.Goes(Resolve(dp, t)) else m.Next()
    case GotoIfTime(from, until, weekdays, timezone, t) =>
      if TimeMatches(from, until, weekdays, m.clock(timezone)) then m.Goes(Resolve(dp, t)) else m.Next()
    case VoiceMail(mailbox) => m.Next().Says(Recorded(mailbox))
    case Hangup => m.Goes(Ended).Says(HungUp)
    case Dial(devices, seconds) =>
      if m.inbox == [] then m
      else
        var o := m.inbox[0].outcome;
        var h := m.Hears().Says(Dialled(devices, seconds, o));
        if o.Answered? || o.CallerGone? then h.Goes(Ended) else h.Next()
    case EnterQueue(name, seconds) =>
      if m.inbox == [] then m
      else
        var o := m.inbox[0].outcome;
        var h := m.Hears().Says(Queued(name, seconds, o));
        if o.Answered? || o.CallerGone? then h.Goes(Ended) else h.Next()
    case WaitExten(seconds) =>
      if m.inbox == [] then m
      else
        var o := m.inbox[0].outcome;
        var h := m.Hears().Says(Asked(seconds, o));
        match o
        case CallerGone => h.Goes(Ended)
        case Pressed(key) => h.Goes(KeyCursor(dp, m.at.context, key))
        case _ => h.Goes(Running(m.at.context, "t", 1))
  }

  /** One step; a missing extension or priority ends the call. */
  function Run1(dp: Dialplan, m: Machine): Machine
  {
    if m.at.Ended? then m
    else match Fetch(dp, m.at)
         case None => m.Goes(Ended)
         case Some(app) => Execute(dp, m, app)
  }

  function RunN(dp: Dialplan, m: Machine, n: nat): Machine
    decreases n
  {
    if n == 0 then m else RunN(dp, Run1(dp, m), n - 1)
  }

  lemma {:induction false} RunAdd(dp: Dialplan, m: Machine, a: nat, b: nat)
    ensures RunN(dp, m, a + b) == RunN(dp, RunN(dp, m, a), b)
    decreases a
  {
    if a > 0 {
      RunAdd(dp, Run1(dp, m), a - 1, b);
    }
  }
}
