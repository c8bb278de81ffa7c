/** validateEdges, validateMemberships and validateGroupsHaveMembers (shared/src/validator.ts). */
module EdgeRules {
  import opened Text
  import opened Topologies
  import opened Issues

  // ---------------------------------------------------------------- rules of one edge

  /** ALLOWED_TRANSITIONS; voicemail, trunk and external have no outgoing edges. */
  predicate IsTransitionAllowed(source: Node, target: Node)
  {
    match source
    case Extension(_, _, _, _, _, _) =>
      target.Ivr? || target.RingGroup? || target.Queue? || target.Schedule? || target.VoicemailBox?
    case Ivr(_, _, _, _) =>
      target.Extension? || target.RingGroup? || target.Queue? || target.Schedule? || target.VoicemailBox?
    case RingGroup(_, _, _) =>
      target.Extension? || target.Ivr? || target.Queue? || target.Schedule? || target.VoicemailBox?
    case Queue(_, _, _, _, _, _) =>
      target.Extension? || target.Ivr? || target.Schedule? || target.VoicemailBox?
    case Schedule(_, _, _, _) => !target.Trunk? && !target.External?
    case _ => false
  }

  /** `/^[0-9*#]$/` */
  predicate IsKey(s: string) { |s| == 1 && (IsDigit(s[0]) || s[0] == '*' || s[0] == '#') }

  /** One of the ten digits (48 to 57), the hash (35) or the star (42). */
  ghost predicate OneKey(s: string) { |s| == 1 && var k := s[0] as int; 48 <= k <= 57 || k == 35 || k == 42 }

  predicate ConditionFits(source: Node, c: Condition)
  {
    && (source.Schedule? <==> c.Open? || c.Closed?)
    && (c.Digit? ==> IsKey(c.value) && source.Ivr?)
    && (c.Invalid? ==> source.Ivr?)
  }

  /** No two nodes of a kind in a row but schedules, nothing after a mailbox, and no ring group behind a queue. */
  ghost predicate MayFollow(source: Node, target: Node)
  {
    && !source.VoicemailBox? && !source.Trunk? && !source.External? && !target.Trunk? && !target.External?
    && !(source.Extension? && target.Extension?) && !(source.Ivr? && target.Ivr?)
    && !(source.RingGroup? && target.RingGroup?) && !(source.Queue? && target.Queue?)
    && !(source.Queue? && target.RingGroup?)
  }

  /** Which transitions and keys the rules allow, told another way. */
  lemma RulesInOtherWords(source: Node, target: Node, key: string)
    ensures IsTransitionAllowed(source, target) <==> MayFollow(source, target)
    ensures IsKey(key) <==> OneKey(key)
  {
  }

  predicate EdgeOk(t: Topology, e: Edge)
  {
    && NodeById(t, e.source).Some? && NodeById(t, e.target).Some? && e.source != e.target
    && IsTransitionAllowed(NodeById(t, e.source).value, NodeById(t, e.target).value)
    && ConditionFits(NodeById(t, e.source).value, ConditionOf(e))
  }

  ghost predicate EdgesApart(e: Edge, f: Edge)
  {
    e.id != f.id && (e.source == f.source ==> ConditionOf(e) != ConditionOf(f))
  }

  ghost predicate EdgeListOk(t: Topology, edges: seq<Edge>)
  {
    && (forall i | 0 <= i < |edges| :: EdgeOk(t, edges[i]))
    && (forall i, j | 0 <= i < j < |edges| :: EdgesApart(edges[i], edges[j]))
  }

  /** seenEdgeIds, digitsBySource and singletonBySource, the two maps of maps as sets of key pairs. */
  datatype Seen = Seen(ids: set<string>, digits: set<(string, string)>, singles: set<(string, Condition)>)

  ghost function SeenIn(edges: seq<Edge>): Seen
  {
    Seen(set e | e in edges :: e.id,
         set e | e in edges && ConditionOf(e).Digit? :: (e.source, ConditionOf(e).value),
         set e | e in edges && !ConditionOf(e).Digit? :: (e.source, ConditionOf(e)))
  }

  predicate Repeats(e: Edge, seen: Seen)
  {
    || e.id in seen.ids
    || match ConditionOf(e)
       case Digit(value) => (e.source, value) in seen.digits
       case c => (e.source, c) in seen.singles
  }

  function DigitIssues(source: Node, e: Edge, value: string, seen: Seen): (r: seq<Issue>)
    ensures HasErrors(r) <==> !IsKey(value) || (e.source, value) in seen.digits || !source.Ivr?
    ensures !Reports(r, NO_OPTIONS)
  {
    Plus(if !IsKey(value) then Err(true, "invalid-digit-condition", e.id)
         else Err((e.source, value) in seen.digits, "duplicate-digit-condition", e.id),
         Err(!source.Ivr?, "digit-condition-on-non-ivr", e.id))
  }

  function SingleIssues(source: Node, e: Edge, c: Condition, seen: Seen): (r: seq<Issue>)
    ensures HasErrors(r) <==> (c.Invalid? && !source.Ivr?) || (e.source, c) in seen.singles
    ensures !Reports(r, NO_OPTIONS)
  {
    Plus(Err(c.Invalid? && !source.Ivr?, "invalid-condition-on-non-ivr", e.id),
         Err((e.source, c) in seen.singles, "duplicate-condition", e.id))
  }

  function ConditionIssues(source: Node, e: Edge, seen: Seen): (r: seq<Issue>)
    ensures HasErrors(r) <==>
              !ConditionFits(source, ConditionOf(e))
              || (match ConditionOf(e)
                  case Digit(value) => (e.source, value) in seen.digits
                  case c => (e.source, c) in seen.singles)
    ensures !Reports(r, NO_OPTIONS)
  {
    var c := ConditionOf(e);
    Plus(Err(source.Schedule? && !c.Open? && !c.Closed?, "schedule-invalid-condition", e.id),
         Plus(Err(!source.Schedule? && (c.Open? || c.Closed?), "schedule-condition-on-non-schedule", e.id),
              match c
              case Digit(value) => DigitIssues(source, e, value, seen)
              case _ => SingleIssues(source, e, c, seen)))
  }

  function EdgeIssues(t: Topology, e: Edge, seen: Seen): (r: seq<Issue>)
    ensures HasErrors(r) <==> !EdgeOk(t, e) || Repeats(e, seen)
    ensures !Reports(r, NO_OPTIONS)
  {
    var source, target := NodeById(t, e.source), NodeById(t, e.target);
    Plus(Err(e.id in seen.ids, "duplicate-edge-id", e.id),
         if source.None? then Err(true, "edge-unknown-source", e.id)
         else if target.None? then Err(true, "edge-unknown-target", e.id)
         else if e.source == e.target then Err(true, "self-loop", e.id)
         else if source.value.VoicemailBox? then Err(true, "voicemail-outgoing-edge", e.id)
         else Plus(Err(!IsTransitionAllowed(source.value, target.value), "invalid-transition", e.id),
                   ConditionIssues(source.value, e, seen)))
  }

  /** What the loop remembers of an edge; edges rejected early leave no condition behind. */
  function Remember(t: Topology, e: Edge, seen: Seen): Seen
  {
    var c := ConditionOf(e);
    var reached := NodeById(t, e.source).Some? && NodeById(t, e.target).Some? && e.source != e.target
                   && !NodeById(t, e.source).value.VoicemailBox?;
    Seen(seen.ids + {e.id},
         if reached && c.Digit? && IsKey(c.value) then seen.digits + {(e.source, c.value)} else seen.digits,
         if reached && !c.Digit? then seen.singles + {(e.source, c)} else seen.singles)
  }

  lemma RepeatsIffNotApart(edges: seq<Edge>, e: Edge)
    ensures Repeats(e, SeenIn(edges)) <==> exists i :: 0 <= i < |edges| && !EdgesApart(edges[i], e)
  {
    var seen, c := SeenIn(edges), ConditionOf(e);
    if e.id in seen.ids {
      var f :| f in edges && f.id == e.id;
      assert !EdgesApart(f, e);
    }
    if c.Digit? && (e.source, c.value) in seen.digits {
      var f :| f in edges && ConditionOf(f).Digit? && (f.source, ConditionOf(f).value) == (e.source, c.value);
      assert !EdgesApart(f, e);
    }
    if !c.Digit? && (e.source, c) in seen.singles {
      var f :| f in edges && !ConditionOf(f).Digit? && (f.source, ConditionOf(f)) == (e.source, c);
      assert !EdgesApart(f, e);
    }
    if i :| 0 <= i < |edges| && !EdgesApart(edges[i], e) {
      assert edges[i] in edges;
    }
  }

  lemma EdgeListSnoc(t: Topology, edges: seq<Edge>, e: Edge)
    ensures EdgeListOk(t, edges + [e]) <==> EdgeListOk(t, edges) && EdgeOk(t, e) && !Repeats(e, SeenIn(edges))
  {
    var all := edges + [e];
    RepeatsIffNotApart(edges, e);
    assert forall i | 0 <= i < |edges| :: all[i] == edges[i];
    assert all[|edges|] == e;
  }

  lemma RememberSnoc(t: Topology, edges: seq<Edge>, e: Edge)
    requires EdgeOk(t, e)
    ensures Remember(t, e, SeenIn(edges)) == SeenIn(edges + [e])
  {
    var all := edges + [e];
    assert forall f :: f in all <==> f in edges || f == e;
  }

  /** What the loop has found and remembers after k edges. */
  ghost predicate Checked(t: Topology, k: nat, issues: seq<Issue>, seen: Seen)
    requires k <= |t.edges|
  {
    && (HasErrors(issues) <==> !EdgeListOk(t, t.edges[..k]))
    && (!HasErrors(issues) ==> seen == SeenIn(t.edges[..k])) && !Reports(issues, NO_OPTIONS)
  }

  lemma NothingChecked(t: Topology)
    ensures Checked(t, 0, [], Seen({}, {}, {}))
  {
    assert t.edges[..0] == [] && SeenIn([]) == Seen({}, {}, {});
  }

  lemma CheckedNext(t: Topology, k: nat, issues: seq<Issue>, seen: Seen)
    requires k < |t.edges| && Checked(t, k, issues, seen)
    ensures Checked(t, k + 1, Plus(issues, EdgeIssues(t, t.edges[k], seen)), Remember(t, t.edges[k], seen))
  {
    var before, e := t.edges[..k], t.edges[k];
    assert t.edges[..k + 1] == before + [e];
    EdgeListSnoc(t, before, e);
    if EdgeOk(t, e) {
      RememberSnoc(t, before, e);
    }
  }

  lemma AllChecked(t: Topology, issues: seq<Issue>, seen: Seen)
    requires Checked(t, |t.edges|, issues, seen)
    ensures HasErrors(issues) <==> !EdgeListOk(t, t.edges)
    ensures !HasErrors(issues) ==> seen == SeenIn(t.edges)
  {
    assert t.edges[..|t.edges|] == t.edges;
  }

  method CheckEdges(t: Topology) returns (issues: seq<Issue>, seen: Seen)
    ensures HasErrors(issues) <==> !EdgeListOk(t, t.edges)
    ensures !HasErrors(issues) ==> seen == SeenIn(t.edges)
    ensures !Reports(issues, NO_OPTIONS)
  {
    issues, seen := [], Seen({}, {}, {});
    NothingChecked(t);
    var k := 0;
    while k < |t.edges|
      invariant 0 <= k <= |t.edges| && Checked(t, k, issues, seen)
    {
      var e := t.edges[k];
      CheckedNext(t, k, issues, seen);
      issues := Plus(issues, EdgeIssues(t, e, seen));
      seen := Remember(t, e, seen);
      k := k + 1;
    }
    AllChecked(t, issues, seen);
  }

  // ---------------------------------------------------------------- outputs of one node

  function Lookup(m: map<string, nat>, k: string): nat { if k in m then m[k] else 0 }

  /** `m.set(k, (m.get(k) ?? 0) + 1)` for every key */
  method CountKeys(keys: seq<string>) returns (m: map<string, nat>)
    ensures forall k :: Lookup(m, k) == multiset(keys)[k]
  {
    m := map[];
    var i := 0;
    while i < |keys|
      invariant 0 <= i <= |keys|
      invariant forall k :: Lookup(m, k) == multiset(keys[..i])[k]
    {
      assert keys[..i + 1] == keys[..i] + [keys[i]];
      m := m[keys[i] := Lookup(m, keys[i]) + 1];
      i := i + 1;
    }
    assert keys[..i] == keys;
  }

  function SourcesOf(edges: seq<Edge>): seq<string>
  {
    if edges == [] then [] else [edges[0].source] + SourcesOf(edges[1..])
  }

  lemma {:induction false} OutDegree(edges: seq<Edge>, id: string)
    ensures multiset(SourcesOf(edges))[id] == |EdgesFrom(edges, id)|
  {
    if edges != [] {
      OutDegree(edges[1..], id);
    }
  }

  ghost predicate HasOutput(t: Topology, n: Node, c: Condition)
  {
    exists e :: e in t.edges && e.source == n.id && ConditionOf(e) == c
  }

  ghost predicate OutputsOk(t: Topology, n: Node)
  {
    match n
    case Ivr(_, _, _, _) => true
    case VoicemailBox(_, _) => true
    case Schedule(_, _, _, _) => HasOutput(t, n, Open) && HasOutput(t, n, Closed) && |Outgoing(t, n.id)| == 2
    case _ => |Outgoing(t, n.id)| <= 1
  }

  predicate OutputAmong(edges: seq<Edge>, c: Condition) { exists e | e in edges :: ConditionOf(e) == c }

  function OutputIssues(t: Topology, n: Node, degree: nat, digits: set<(string, string)>): (r: seq<Issue>)
    requires degree == |Outgoing(t, n.id)|
    ensures HasErrors(r) <==> !OutputsOk(t, n)
    ensures Reports(r, NO_OPTIONS) <==> n.Ivr? && forall d | d in digits :: d.0 != n.id
  {
    match n
    case Ivr(id, _, _, _) => Warn(forall d | d in digits :: d.0 != id, NO_OPTIONS, id)
    case VoicemailBox(_, _) => []
    case Schedule(id, _, _, _) =>
      Plus(Err(!OutputAmong(Outgoing(t, id), Open), "schedule-missing-open-edge", id),
           Plus(Err(!OutputAmong(Outgoing(t, id), Closed), "schedule-missing-closed-edge", id),
                Err(degree != 2, "schedule-ambiguous-outputs", id)))
    case _ => Err(degree > 1, "ambiguous-fallback", n.id)
  }

  ghost predicate EdgesOk(t: Topology)
  {
    EdgeListOk(t, t.edges) && forall n | n in t.nodes :: OutputsOk(t, n)
  }

  /** A menu without any edge for a key: its callers can only run into the timeout. */
  ghost predicate WithoutOptions(t: Topology, n: Node)
  {
    n.Ivr? && forall e | e in t.edges && e.source == n.id :: !(e.condition.Some? && e.condition.value.Digit?)
  }

  /** What the loop over the nodes has found after k of them. */
  ghost predicate OutputsSeen(t: Topology, k: nat, issues: seq<Issue>)
    requires k <= |t.nodes|
  {
    && (HasErrors(issues) <==> !(EdgeListOk(t, t.edges) && forall i | 0 <= i < k :: OutputsOk(t, t.nodes[i])))
    && (!HasErrors(issues) ==>
          (Reports(issues, NO_OPTIONS) <==> exists i :: 0 <= i < k && WithoutOptions(t, t.nodes[i])))
  }

  lemma NoDigitSeen(t: Topology, n: Node)
    requires n.Ivr?
    ensures (forall d | d in SeenIn(t.edges).digits :: d.0 != n.id) <==> WithoutOptions(t, n)
  {
    var digits := SeenIn(t.edges).digits;
    if !WithoutOptions(t, n) {
      var e :| e in t.edges && e.source == n.id && e.condition.Some? && e.condition.value.Digit?;
      assert (e.source, ConditionOf(e).value) in digits;
    }
  }

  lemma OutputsSeenNext(t: Topology, k: nat, issues: seq<Issue>, degree: nat, seen: Seen)
    requires k < |t.nodes| && OutputsSeen(t, k, issues) && degree == |Outgoing(t, t.nodes[k].id)|
    requires EdgeListOk(t, t.edges) ==> seen == SeenIn(t.edges)
    ensures OutputsSeen(t, k + 1, Plus(issues, OutputIssues(t, t.nodes[k], degree, seen.digits)))
  {
    var n := t.nodes[k];
    if n.Ivr? {
      NoDigitSeen(t, n);
    }
  }

  lemma AllOutputsSeen(t: Topology, issues: seq<Issue>)
    requires OutputsSeen(t, |t.nodes|, issues)
    ensures HasErrors(issues) <==> !EdgesOk(t)
    ensures !HasErrors(issues) ==>
              (Reports(issues, NO_OPTIONS) <==> exists n :: n in t.nodes && WithoutOptions(t, n))
  {
    assert (forall i | 0 <= i < |t.nodes| :: OutputsOk(t, t.nodes[i])) <==> forall n | n in t.nodes :: OutputsOk(t, n);
  }

  /** Where no rule is broken, the menu warning is given exactly when some menu has no edge for a key. */
  method ValidateEdges(t: Topology) returns (issues: seq<Issue>)
    ensures HasErrors(issues) <==> !EdgesOk(t)
    ensures !HasErrors(issues) ==>
              (Reports(issues, NO_OPTIONS) <==> exists n :: n in t.nodes && WithoutOptions(t, n))
  {
    var seen;
    issues, seen := CheckEdges(t);
    var outgoingCount := CountKeys(SourcesOf(t.edges));
    var k := 0;
    while k < |t.nodes|
      invariant 0 <= k <= |t.nodes| && OutputsSeen(t, k, issues)
    {
      var n := t.nodes[k];
      OutDegree(t.edges, n.id);
      OutputsSeenNext(t, k, issues, Lookup(outgoingCount, n.id), seen);
      issues := Plus(issues, OutputIssues(t, n, Lookup(outgoingCount, n.id), seen.digits));
      k := k + 1;
    }
    AllOutputsSeen(t, issues);
  }

  // ---------------------------------------------------------------- memberships

  const SEPARATOR := "\\0"

  /** The key of a pair; the separator is a backslash followed by a zero. */
  function PairKey(m: Membership): string { m.groupId + SEPARATOR + m.memberId }

  predicate IsGroup(n: Node) { n.RingGroup? || n.Queue? }

  predicate EndsOk(t: Topology, m: Membership)
  {
    && NodeById(t, m.groupId).Some? && (NodeById(t, m.groupId).value.RingGroup? || NodeById(t, m.groupId).value.Queue?)
    && NodeById(t, m.memberId).Some? && NodeById(t, m.memberId).value.Extension?
  }

  predicate SamePair(m: Membership, n: Membership) { m.groupId == n.groupId && m.memberId == n.memberId }

  /** Every membership joins an extension to a group; no id and no pair of group and member is repeated. */
  ghost predicate MembershipsOk(t: Topology, ms: seq<Membership>)
  {
    && (forall i | 0 <= i < |ms| :: EndsOk(t, ms[i]))
    && (forall i, j | 0 <= i < j < |ms| :: ms[i].id != ms[j].id && !SamePair(ms[i], ms[j]))
  }

  /** Two different pairs whose joined keys are the same text. */
  ghost predicate KeysClash(ms: seq<Membership>)
  {
    exists i, j :: 0 <= i < j < |ms| && !SamePair(ms[i], ms[j]) && PairKey(ms[i]) == PairKey(ms[j])
  }

  /** What the loop accepts: it compares keys instead of pairs. */
  ghost predicate MembershipsPass(t: Topology, ms: seq<Membership>)
  {
    && (forall i | 0 <= i < |ms| :: EndsOk(t, ms[i]))
    && (forall i, j | 0 <= i < j < |ms| :: ms[i].id != ms[j].id && PairKey(ms[i]) != PairKey(ms[j]))
  }

  /** The loop is right about the memberships if and only if no keys clash where all rules are obeyed. */
  lemma MembershipCheckIsRightExactlyWhen(t: Topology, ms: seq<Membership>)
    ensures MembershipsPass(t, ms) <==> MembershipsOk(t, ms) && !KeysClash(ms)
    ensures (MembershipsPass(t, ms) <==> MembershipsOk(t, ms)) <==> (MembershipsOk(t, ms) ==> !KeysClash(ms))
  {
    if MembershipsOk(t, ms) && !KeysClash(ms) {
      forall i, j | 0 <= i < j < |ms| ensures ms[i].id != ms[j].id && PairKey(ms[i]) != PairKey(ms[j]) {
        assert !SamePair(ms[i], ms[j]);
      }
    }
    forall i, j | 0 <= i < j < |ms| && SamePair(ms[i], ms[j]) ensures PairKey(ms[i]) == PairKey(ms[j]) {
    }
  }

  ghost predicate WithoutSeparator(id: string) { forall k: nat :: !OccursAt(id, k, SEPARATOR) }

  /** A longer group id with the same key contains the separator. */
  lemma LongerGroupSplits(m: Membership, n: Membership)
    requires PairKey(m) == PairKey(n) && |m.groupId| < |n.groupId|
    ensures !WithoutSeparator(n.groupId)
  {
    var k := |m.groupId|;
    assert PairKey(m)[k] == SEPARATOR[0] == '\\' && PairKey(m)[k + 1] == SEPARATOR[1] == '0';
    assert PairKey(n)[k] == n.groupId[k];
    assert PairKey(n)[|n.groupId|] == SEPARATOR[0];
    assert PairKey(n)[k + 1] == n.groupId[k + 1];
    assert n.groupId[k..k + 2] == SEPARATOR;
    assert OccursAt(n.groupId, k, SEPARATOR);
  }

  /** Group ids without the separator: the key gives back the pair. */
  lemma PairKeyInjective(m: Membership, n: Membership)
    requires WithoutSeparator(m.groupId) && WithoutSeparator(n.groupId) && PairKey(m) == PairKey(n)
    ensures SamePair(m, n)
  {
    if |m.groupId| < |n.groupId| {
      LongerGroupSplits(m, n);
    } else if |n.groupId| < |m.groupId| {
      LongerGroupSplits(n, m);
    } else {
      var k := |m.groupId|;
      assert PairKey(m)[..k] == m.groupId && PairKey(n)[..k] == n.groupId;
      assert PairKey(m)[k + 2..] == m.memberId && PairKey(n)[k + 2..] == n.memberId;
    }
  }

  /** So for group ids without the separator the check accepts exactly what the rules ask for. */
  lemma MembershipCheckIsRight(t: Topology, ms: seq<Membership>)
    requires forall m | m in ms :: WithoutSeparator(m.groupId)
    ensures !KeysClash(ms) && (MembershipsPass(t, ms) <==> MembershipsOk(t, ms))
  {
    forall i, j | 0 <= i < j < |ms| && PairKey(ms[i]) == PairKey(ms[j]) ensures SamePair(ms[i], ms[j]) {
      assert ms[i] in ms && ms[j] in ms;
      PairKeyInjective(ms[i], ms[j]);
    }
    MembershipCheckIsRightExactlyWhen(t, ms);
  }

  function MembershipIssues(t: Topology, m: Membership, ids: set<string>, pairs: set<string>): (r: seq<Issue>)
    ensures HasErrors(r) <==> !EndsOk(t, m) || m.id in ids || PairKey(m) in pairs
  {
    var group, member := NodeById(t, m.groupId), NodeById(t, m.memberId);
    Plus(Plus(Err(m.id in ids, "duplicate-membership-id", m.id),
        Err(PairKey(m) in pairs, "duplicate-membership", m.id)),
         Plus(Err(group.None? || !IsGroup(group.value), "membership-invalid-group", m.id),
              Err(member.None? || !member.value.Extension?, "membership-invalid-member", m.id)))
  }

  lemma MembershipsSnoc(t: Topology, ms: seq<Membership>, m: Membership)
    ensures MembershipsPass(t, ms + [m])
            <==> MembershipsPass(t, ms) && EndsOk(t, m)
                 && m.id !in MembershipIds(ms) && PairKey(m) !in PairKeys(ms)
    ensures MembershipIds(ms + [m]) == MembershipIds(ms) + {m.id}
    ensures PairKeys(ms + [m]) == PairKeys(ms) + {PairKey(m)}
  {
    var all := ms + [m];
    assert forall x :: x in all <==> x in ms || x == m;
    assert forall i | 0 <= i < |ms| :: all[i] == ms[i];
    assert all[|ms|] == m;
  }

  ghost function MembershipIds(ms: seq<Membership>): set<string> { set m | m in ms :: m.id }

  ghost function PairKeys(ms: seq<Membership>): set<string> { set m | m in ms :: PairKey(m) }

  method ValidateMemberships(t: Topology) returns (issues: seq<Issue>)
    ensures HasErrors(issues) <==> !(MembershipsOk(t, t.memberships) && !KeysClash(t.memberships))
  {
    issues := [];
    var ids: set<string>, pairs: set<string> := {}, {};
    var k := 0;
    while k < |t.memberships|
      invariant 0 <= k <= |t.memberships|
      invariant HasErrors(issues) <==> !MembershipsPass(t, t.memberships[..k])
      invariant ids == MembershipIds(t.memberships[..k]) && pairs == PairKeys(t.memberships[..k])
    {
      var m := t.memberships[k];
      assert t.memberships[..k + 1] == t.memberships[..k] + [m];
      MembershipsSnoc(t, t.memberships[..k], m);
      issues := Plus(issues, MembershipIssues(t, m, ids, pairs));
      ids, pairs := ids + {m.id}, pairs + {PairKey(m)};
      k := k + 1;
    }
    assert t.memberships[..k] == t.memberships;
    MembershipCheckIsRightExactlyWhen(t, t.memberships);
  }

  function GroupsOf(ms: seq<Membership>): (r: seq<string>)
    ensures forall id :: id in r <==> exists m :: m in ms && m.groupId == id
  {
    if ms == [] then []
    else
      assert forall m :: m in ms <==> m == ms[0] || m in ms[1..];
      [ms[0].groupId] + GroupsOf(ms[1..])
  }

  ghost predicate HasMember(t: Topology, n: Node) { exists m :: m in t.memberships && m.groupId == n.id }

  ghost predicate GroupsHaveMembers(t: Topology)
  {
    forall n | n in t.nodes && (n.RingGroup? || n.Queue?) :: HasMember(t, n)
  }

  method ValidateGroupsHaveMembers(t: Topology) returns (issues: seq<Issue>)
    ensures HasErrors(issues) <==> !GroupsHaveMembers(t)
  {
    issues := [];
    var memberCount := CountKeys(GroupsOf(t.memberships));
    var k := 0;
    while k < |t.nodes|
      invariant 0 <= k <= |t.nodes|
      invariant HasErrors(issues) <==> exists i :: 0 <= i < k && IsGroup(t.nodes[i]) && !HasMember(t, t.nodes[i])
    {
      var n := t.nodes[k];
      if IsGroup(n) && Lookup(memberCount, n.id) == 0 {
        assert n.id !in GroupsOf(t.memberships);
        issues := Plus(issues, Err(true, "group-without-members", n.id));
      } else if IsGroup(n) {
        assert n.id in multiset(GroupsOf(t.memberships));
        assert n.id in GroupsOf(t.memberships);
      }
      k := k + 1;
    }
  }
}
