/** What every run of store operations keeps: pointers, retained revisions, redaction and secrets. */
module StoreTheorems {
  import opened Text
  import opened Topologies
  import opened StoreSpec

  datatype Op =
    | SaveOp(t: Topology, expected: nat, allowPlaintext: bool)
    | SecretOp(id: string, plaintext: string, expected: nat)
    | RollbackOp(target: nat, expected: nat)
    | ActivateOp(revision: nat)
    | DeploymentOp(id: string, revision: nat)
    | RotateOp(from: Cipher, to: Cipher, auditFails: bool)

  function Apply(s: Store, op: Op): Store
  {
    match op
    case SaveOp(t, e, allow) => Save(s, t, e, allow).0
    case SecretOp(id, p, e) => ChangeSecret(s, id, p, e).0
    case RollbackOp(target, e) => RollBack(s, target, e).0
    case ActivateOp(r) => MarkActive(s, r).0
    case DeploymentOp(id, r) => CreateDeployment(s, id, r).0
    case RotateOp(from, to, fails) => Rotate(s, from, to, fails).0
  }

  function Run(s: Store, ops: seq<Op>): Store
  {
    if ops == [] then s else Apply(Run(s, ops[..|ops| - 1]), ops[|ops| - 1])
  }

  // ---------------------------------------------------------------- writes

  /** The revision a writer believed to be current. */
  function HeldRevision(op: Op): Option<nat>
  {
    match op
    case SaveOp(_, e, _) => Some(e)
    case SecretOp(_, _, e) => Some(e)
    case RollbackOp(_, e) => Some(e)
    case _ => None
  }

  /** The revision number a successful write reports. */
  function WrittenRevision(s: Store, op: Op): Option<nat>
  {
    match op
    case SaveOp(t, e, allow) => OkValue(Save(s, t, e, allow).1)
    case SecretOp(id, p, e) => OkValue(ChangeSecret(s, id, p, e).1)
    case RollbackOp(target, e) => OkValue(RollBack(s, target, e).1)
    case _ => None
  }

  function OkValue(r: Result<nat>): Option<nat> { if r.Ok? then Some(r.value) else None }

  /** How many writers holding revision `e` succeed in a run. */
  function Winners(s: Store, ops: seq<Op>, e: nat): nat
  {
    if ops == [] then 0
    else
      var before := Run(s, ops[..|ops| - 1]);
      var op := ops[|ops| - 1];
      Winners(s, ops[..|ops| - 1], e)
          + (if HeldRevision(op) == Some(e) && WrittenRevision(before, op).Some? then 1 else 0)
  }

  // ---------------------------------------------------------------- the invariant

  ghost predicate PointersResolve(s: Store)
  {
    && s.current in s.revisions
    && s.active == s.lastGood
    && (s.active.Some? ==> s.active.value in s.revisions)
    && (forall d | d in s.deployments :: s.deployments[d] in s.revisions)
  }

  /** The newest `max(1, limit)` revision numbers handed out so far. */
  predicate Recent(s: Store, r: nat) { 1 <= r < s.next && (s.next - s.limit <= r || r == s.next - 1) }

  ghost predicate Numbered(s: Store)
  {
    && s.current == s.next - 1
    && (forall r | r in s.revisions :: 1 <= r < s.next)
    && (forall r: nat | Recent(s, r) :: r in s.revisions)
  }

  predicate Plainless(n: Node) { n.Extension? ==> n.sipPassword.None? && n.configured.Some? }

  predicate Marked(n: Node) { n.Extension? && n.configured == Some(true) }

  ghost predicate AllRedacted(nodes: seq<Node>) { forall n | n in nodes :: Plainless(n) }

  ghost predicate RevisionsRedacted(s: Store)
  {
    forall r | r in s.revisions :: AllRedacted(s.revisions[r].nodes)
  }

  /** The rows are those of current extensions, open under the cipher, and cover every configured one. */
  ghost predicate RowsMatch(nodes: seq<Node>, secrets: map<string, Sealed>, c: Cipher)
  {
    && AllOpen(secrets, c)
    && (forall id | id in secrets :: id in ExtensionIds(nodes))
    && (forall n | n in nodes && Marked(n) :: n.id in secrets)
    && (DistinctIds(nodes) ==> forall n | n in nodes && n.Extension? && n.id in secrets :: Marked(n))
  }

  ghost predicate DistinctIds(nodes: seq<Node>)
  {
    forall i, j | 0 <= i < j < |nodes| :: nodes[i].id != nodes[j].id
  }

  ghost predicate SecretsMatch(s: Store)
  {
    s.current in s.revisions && RowsMatch(s.revisions[s.current].nodes, s.secrets, s.cipher)
  }

  ghost predicate Inv(s: Store)
  {
    PointersResolve(s) && Numbered(s) && RevisionsRedacted(s) && SecretsMatch(s)
  }

  // ---------------------------------------------------------------- what preparing a topology does

  /** The password this topology gives for an extension: the last non-empty one. */
  function LastGiven(nodes: seq<Node>, id: string): Option<string>
  {
    if nodes == [] then None
    else
      var n := nodes[|nodes| - 1];
      if n.Extension? && n.id == id && n.sipPassword.Some? && n.sipPassword.value != "" then n.sipPassword
      else LastGiven(nodes[..|nodes| - 1], id)
  }

  /** The plaintext a reader would get for an extension. */
  function Plain(secrets: map<string, Sealed>, c: Cipher, id: string): Option<string>
  {
    if id in secrets then Decrypt(c, secrets[id], id) else None
  }

  lemma {:induction false} PutAllRow(nodes: seq<Node>, secrets: map<string, Sealed>, c: Cipher, id: string)
    ensures LastGiven(nodes, id).Some? ==>
              id in PutAll(nodes, secrets, c)
                  && PutAll(nodes, secrets, c)[id] == Encrypt(c, LastGiven(nodes, id).value, id)
    ensures LastGiven(nodes, id).None? ==>
              && (id in PutAll(nodes, secrets, c) <==> id in secrets)
              && (id in secrets ==> PutAll(nodes, secrets, c)[id] == secrets[id])
  {
    if nodes != [] {
      PutAllRow(nodes[..|nodes| - 1], secrets, c, id);
    }
  }

  lemma {:induction false} PreparedAt(nodes: seq<Node>, secrets: map<string, Sealed>, c: Cipher, i: nat)
    requires i < |nodes|
    ensures Prepared(nodes, secrets, c)[i] == Redacted(nodes[i], nodes[i].id in PutAll(nodes[..i + 1], secrets, c))
  {
    var k := |nodes| - 1;
    if i < k {
      PreparedAt(nodes[..k], secrets, c, i);
      assert nodes[..k][..i + 1] == nodes[..i + 1];
    } else {
      assert nodes[..i + 1] == nodes;
    }
  }

  lemma {:induction false} PutAllGrows(nodes: seq<Node>, secrets: map<string, Sealed>, c: Cipher, i: nat, id: string)
    requires i <= |nodes|
    requires id in PutAll(nodes[..i], secrets, c)
    ensures id in PutAll(nodes, secrets, c)
  {
    if i < |nodes| {
      var k := |nodes| - 1;
      assert nodes[..k][..i] == nodes[..i];
      PutAllGrows(nodes[..k], secrets, c, i, id);
    } else {
      assert nodes[..i] == nodes;
    }
  }

  /** A row that appears after node `i` belongs to a later node with the same id. */
  lemma {:induction false} PutAllLater(nodes: seq<Node>, secrets: map<string, Sealed>, c: Cipher, i: nat, id: string)
    requires i <= |nodes|
    requires id in PutAll(nodes, secrets, c) && id !in PutAll(nodes[..i], secrets, c)
    ensures exists j :: i <= j < |nodes| && nodes[j].id == id
  {
    var k := |nodes| - 1;
    assert nodes[..|nodes|] == nodes;
    if id in PutAll(nodes[..k], secrets, c) {
      assert nodes[..k][..i] == nodes[..i];
      PutAllLater(nodes[..k], secrets, c, i, id);
      var j :| i <= j < k && nodes[..k][j].id == id;
      assert nodes[j].id == id;
    } else {
      assert nodes[k].id == id;
    }
  }

  /** `p` holds the nodes without passwords, whatever their marks. */
  /** The same node but for its password and its configured mark, which only an extension has. */
  ghost predicate SameButSecret(n: Node, m: Node)
  {
    if n.Extension? then
      m.Extension? && m.id == n.id && m.number == n.number && m.sipUser == n.sipUser && m.voicemail == n.voicemail
    else m == n
  }

  /** Node by node the same, with no password and some mark on every extension. */
  ghost predicate RedactedForms(nodes: seq<Node>, p: seq<Node>)
  {
    && |p| == |nodes|
    && forall i: nat | i < |nodes| :: SameButSecret(nodes[i], p[i]) && Plainless(p[i])
  }

  lemma PreparedForms(nodes: seq<Node>, secrets: map<string, Sealed>, c: Cipher)
    ensures RedactedForms(nodes, Prepared(nodes, secrets, c))
  {
    forall i: nat | i < |nodes|
      ensures Prepared(nodes, secrets, c)[i] == Redacted(nodes[i], nodes[i].id in PutAll(nodes[..i + 1], secrets, c))
    {
      PreparedAt(nodes, secrets, c, i);
    }
  }

  lemma FormsRedacted(nodes: seq<Node>, p: seq<Node>)
    requires RedactedForms(nodes, p)
    ensures AllRedacted(p)
  {
  }

  lemma SameExtensions(nodes: seq<Node>, p: seq<Node>)
    requires RedactedForms(nodes, p)
    ensures ExtensionIds(p) == ExtensionIds(nodes)
  {
    forall id | id in ExtensionIds(nodes) ensures id in ExtensionIds(p) {
      var n :| n in nodes && n.Extension? && n.id == id;
      var i: nat :| i < |nodes| && nodes[i] == n;
      assert p[i] in p && p[i].Extension? && p[i].id == id;
    }
    forall id | id in ExtensionIds(p) ensures id in ExtensionIds(nodes) {
      var n :| n in p && n.Extension? && n.id == id;
      var i: nat :| i < |p| && p[i] == n;
      assert nodes[i] in nodes && nodes[i].Extension? && nodes[i].id == id;
    }
  }

  /** A prepared extension is marked iff its row exists, as long as no later node has its id. */
  lemma MarkedIffRow(nodes: seq<Node>, secrets: map<string, Sealed>, c: Cipher, i: nat)
    requires i < |nodes| && nodes[i].Extension?
    ensures Marked(Prepared(nodes, secrets, c)[i]) ==> nodes[i].id in PutAll(nodes, secrets, c)
    ensures DistinctIds(nodes) && nodes[i].id in PutAll(nodes, secrets, c) ==>
              Marked(Prepared(nodes, secrets, c)[i])
  {
    var id := nodes[i].id;
    PreparedAt(nodes, secrets, c, i);
    if id in PutAll(nodes[..i + 1], secrets, c) {
      PutAllGrows(nodes, secrets, c, i + 1, id);
    } else if id in PutAll(nodes, secrets, c) {
      PutAllLater(nodes, secrets, c, i + 1, id);
    }
  }

  lemma KeptRow(nodes: seq<Node>, secrets: map<string, Sealed>, c: Cipher, n: Node)
    requires n in nodes && n.Extension?
    ensures n.id in KeptSecrets(nodes, secrets, c) <==> n.id in PutAll(nodes, secrets, c)
  {
  }

  lemma FormsDistinct(nodes: seq<Node>, p: seq<Node>)
    requires RedactedForms(nodes, p) && DistinctIds(p)
    ensures DistinctIds(nodes)
  {
    forall i, j | 0 <= i < j < |nodes| ensures nodes[i].id != nodes[j].id {
      assert p[i].id == nodes[i].id && p[j].id == nodes[j].id;
    }
  }

  /** Preparing leaves the rows matching the prepared nodes. */
  lemma PreparedMatches(nodes: seq<Node>, secrets: map<string, Sealed>, c: Cipher)
    requires AllOpen(secrets, c)
    ensures RowsMatch(Prepared(nodes, secrets, c), KeptSecrets(nodes, secrets, c), c)
  {
    var p, rows := Prepared(nodes, secrets, c), KeptSecrets(nodes, secrets, c);
    PreparedForms(nodes, secrets, c);
    SameExtensions(nodes, p);
    KeptOpen(nodes, secrets, c);
    forall i: nat | i < |p| && p[i].Extension?
      ensures Marked(p[i]) ==> p[i].id in rows
      ensures DistinctIds(p) && p[i].id in rows ==> Marked(p[i])
    {
      MarkedIffRow(nodes, secrets, c, i);
      KeptRow(nodes, secrets, c, nodes[i]);
      if DistinctIds(p) {
        FormsDistinct(nodes, p);
      }
    }
  }

  lemma KeptOpen(nodes: seq<Node>, secrets: map<string, Sealed>, c: Cipher)
    requires AllOpen(secrets, c)
    ensures AllOpen(KeptSecrets(nodes, secrets, c), c)
  {
    forall id | id in KeptSecrets(nodes, secrets, c)
      ensures Decrypt(c, KeptSecrets(nodes, secrets, c)[id], id).Some?
    {
      PutAllRow(nodes, secrets, c, id);
    }
  }

  // ---------------------------------------------------------------- retention

  function Span(lo: nat, hi: nat): (span: set<nat>)
    requires lo <= hi
    ensures forall r: nat :: r in span <==> lo <= r < hi
    ensures |span| == hi - lo
    decreases hi - lo
  {
    if lo == hi then {} else Span(lo, hi - 1) + {hi - 1}
  }

  lemma {:induction false} SubsetSize(a: set<nat>, b: set<nat>)
    requires a <= b
    ensures |a| <= |b|
  {
    if a != {} {
      var x :| x in a;
      SubsetSize(a - {x}, b - {x});
    }
  }

  /** With contiguous recent numbers, a revision survives pruning iff it is a pointer or recent. */
  lemma SurvivesIffRecent(s: Store, r: nat)
    requires Numbered(s) && r in s.revisions
    ensures Survives(s, r) <==> r in Pointers(s) || Recent(s, r)
  {
    if r + s.limit >= s.next {
      NewerWithin(s.revisions.Keys, r, s.next);
    } else {
      forall q | q in Span(s.next - s.limit, s.next) ensures q in s.revisions {
        assert Recent(s, q);
      }
      NewerBeyond(s.revisions.Keys, r, s.next - s.limit, s.next);
    }
  }

  lemma NewerWithin(all: set<nat>, r: nat, next: nat)
    requires r < next && forall q | q in all :: q < next
    ensures |Newer(all, r)| < next - r
  {
    SubsetSize(Newer(all, r), Span(r + 1, next));
  }

  lemma NewerBeyond(all: set<nat>, r: nat, from: nat, next: nat)
    requires r < from <= next && Span(from, next) <= all
    ensures |Newer(all, r)| >= next - from
  {
    SubsetSize(Span(from, next), Newer(all, r));
  }

  // ---------------------------------------------------------------- one step keeps the invariant

  lemma InsertKeepsNumbers(s: Store, t: Topology)
    requires PointersResolve(s) && Numbered(s)
    ensures PointersResolve(Inserted(s, t)) && Numbered(Inserted(s, t))
  {
    var m := Inserted(s, t);
    forall r: nat | Recent(m, r) ensures r in m.revisions {
      if r != s.next {
        assert Recent(s, r);
      }
    }
  }

  lemma InsertKeepsSecrets(s: Store, t: Topology)
    requires RevisionsRedacted(s) && SecretsMatch(s)
    ensures RevisionsRedacted(Inserted(s, t)) && SecretsMatch(Inserted(s, t))
  {
    PreparedForms(t.nodes, s.secrets, s.cipher);
    FormsRedacted(t.nodes, Prepared(t.nodes, s.secrets, s.cipher));
    PreparedMatches(t.nodes, s.secrets, s.cipher);
  }

  lemma PruneKeepsNumbers(s: Store)
    requires PointersResolve(s) && Numbered(s)
    ensures PointersResolve(Pruned(s)) && Numbered(Pruned(s))
  {
    var p := Pruned(s);
    forall r: nat | Recent(p, r) ensures r in p.revisions {
      assert Recent(s, r);
      SurvivesIffRecent(s, r);
    }
    assert forall r | r in s.revisions && r in Pointers(s) :: r in p.revisions;
  }

  lemma PruneKeepsSecrets(s: Store)
    requires RevisionsRedacted(s) && SecretsMatch(s)
    ensures RevisionsRedacted(Pruned(s)) && SecretsMatch(Pruned(s))
  {
    assert s.current in Pointers(s);
  }

  lemma SaveKeeps(s: Store, t: Topology, expected: nat, allowPlaintext: bool)
    requires Inv(s)
    ensures Inv(Save(s, t, expected, allowPlaintext).0)
  {
    InsertKeepsNumbers(s, t);
    InsertKeepsSecrets(s, t);
    PruneKeepsNumbers(Inserted(s, t));
    PruneKeepsSecrets(Inserted(s, t));
  }

  /** updateSipSecret is a save over a table that already holds the new row. */
  lemma ChangeSecretKeeps(s: Store, id: string, plaintext: string, expected: nat)
    requires Inv(s)
    ensures Inv(ChangeSecret(s, id, plaintext, expected).0)
  {
    var (after, r) := ChangeSecret(s, id, plaintext, expected);
    if r.Ok? {
      var t := s.revisions[s.current];
      var t' := t.(nodes := MarkConfigured(t.nodes, id));
      var s' := s.(secrets := s.secrets[id := Encrypt(s.cipher, plaintext, id)]);
      InsertKeepsNumbers(s', t');
      PreparedForms(t'.nodes, s'.secrets, s'.cipher);
      FormsRedacted(t'.nodes, Prepared(t'.nodes, s'.secrets, s'.cipher));
      PreparedMatches(t'.nodes, s'.secrets, s'.cipher);
      PruneKeepsNumbers(Inserted(s', t'));
      PruneKeepsSecrets(Inserted(s', t'));
    }
  }

  lemma RotateKeeps(s: Store, from: Cipher, to: Cipher, auditFails: bool)
    requires Inv(s)
    ensures Inv(Rotate(s, from, to, auditFails).0)
  {
  }

  lemma StepKeeps(s: Store, op: Op)
    requires Inv(s)
    ensures Inv(Apply(s, op))
  {
    match op
    case SaveOp(t, e, allow) => SaveKeeps(s, t, e, allow);
    case SecretOp(id, p, e) => ChangeSecretKeeps(s, id, p, e);
    case RollbackOp(target, e) =>
      if target in s.revisions { SaveKeeps(s, s.revisions[target], e, false); }
    case ActivateOp(r) =>
    case DeploymentOp(id, r) =>
    case RotateOp(from, to, fails) => RotateKeeps(s, from, to, fails);
  }

  lemma InitialInv(t: Topology, c: Cipher, limit: nat)
    ensures Inv(Initial(t, c, limit))
  {
    PreparedForms(t.nodes, map[], c);
    FormsRedacted(t.nodes, Prepared(t.nodes, map[], c));
    PreparedMatches(t.nodes, map[], c);
  }

  /** Every reachable store satisfies the invariant. */
  lemma {:induction false} RunKeepsInvariant(t: Topology, c: Cipher, limit: nat, ops: seq<Op>)
    ensures Inv(Run(Initial(t, c, limit), ops))
  {
    if ops == [] {
      InitialInv(t, c, limit);
    } else {
      RunKeepsInvariant(t, c, limit, ops[..|ops| - 1]);
      StepKeeps(Run(Initial(t, c, limit), ops[..|ops| - 1]), ops[|ops| - 1]);
    }
  }

  // ---------------------------------------------------------------- revisions

  /** The store and the topology that a successful write inserts into and prunes. */
  function Basis(s: Store, op: Op): (Store, Topology)
    requires WrittenRevision(s, op).Some?
  {
    match op
    case SaveOp(t, _, _) => (s, t)
    case SecretOp(id, p, _) =>
      var t := s.revisions[s.current];
      (s.(secrets := s.secrets[id := Encrypt(s.cipher, p, id)]), t.(nodes := MarkConfigured(t.nodes, id)))
    case RollbackOp(target, _) => (s, s.revisions[target])
  }

  /** A write succeeds only for the holder of the current revision, and takes the next number. */
  lemma WriteShape(s: Store, op: Op)
    requires WrittenRevision(s, op).Some?
    ensures HeldRevision(op) == Some(s.current) && WrittenRevision(s, op) == Some(s.next)
    ensures Basis(s, op).0 == s.(secrets := Basis(s, op).0.secrets)
    ensures Apply(s, op) == Pruned(Inserted(Basis(s, op).0, Basis(s, op).1))
  {
  }

  /** Everything else leaves the revisions alone, and a refused write changes nothing at all. */
  lemma NoWriteShape(s: Store, op: Op)
    requires WrittenRevision(s, op).None?
    ensures Apply(s, op).revisions == s.revisions && Apply(s, op).next == s.next && Apply(s, op).current == s.current
    ensures HeldRevision(op).Some? ==> Apply(s, op) == s
    ensures !op.RotateOp? ==> Apply(s, op).secrets == s.secrets && Apply(s, op).cipher == s.cipher
  {
  }

  /** Right after a write the retained revisions are exactly the newest ones and the pointers. */
  lemma WriteRetainsExactly(s: Store, op: Op, r: nat)
    requires Inv(s) && WrittenRevision(s, op).Some?
    ensures r in Apply(s, op).revisions <==> r in Pointers(Apply(s, op)) || Recent(Apply(s, op), r)
  {
    WriteShape(s, op);
    StepKeeps(s, op);
    var (b, t) := Basis(s, op);
    InsertKeepsNumbers(b, t);
    if r in Inserted(b, t).revisions {
      SurvivesIffRecent(Inserted(b, t), r);
    }
  }

  ghost predicate AtMostOneOld(s: Store)
  {
    forall a, b | a in s.revisions && b in s.revisions && !Recent(s, a) && !Recent(s, b) :: a == b
  }

  lemma StepKeepsOneOld(s: Store, op: Op)
    requires Inv(s) && AtMostOneOld(s)
    ensures AtMostOneOld(Apply(s, op))
  {
    var after := Apply(s, op);
    if WrittenRevision(s, op).Some? {
      StepKeeps(s, op);
      forall r | r in after.revisions && !Recent(after, r) ensures after.active == Some(r) {
        WriteRetainsExactly(s, op, r);
      }
    } else {
      NoWriteShape(s, op);
    }
  }

  lemma {:induction false} RunKeepsOneOld(t: Topology, c: Cipher, limit: nat, ops: seq<Op>)
    ensures AtMostOneOld(Run(Initial(t, c, limit), ops))
  {
    if ops != [] {
      RunKeepsOneOld(t, c, limit, ops[..|ops| - 1]);
      RunKeepsInvariant(t, c, limit, ops[..|ops| - 1]);
      StepKeepsOneOld(Run(Initial(t, c, limit), ops[..|ops| - 1]), ops[|ops| - 1]);
    }
  }

  lemma {:induction false} RunKeepsLimit(s: Store, ops: seq<Op>)
    ensures Run(s, ops).limit == s.limit
  {
    if ops != [] {
      RunKeepsLimit(s, ops[..|ops| - 1]);
    }
  }

  /** No reachable store holds more than `max(1, limit) + 1` revisions. */
  lemma RetainedBounded(t: Topology, c: Cipher, limit: nat, ops: seq<Op>)
    ensures |Run(Initial(t, c, limit), ops).revisions| <= (if limit == 0 then 1 else limit) + 1
  {
    var s := Run(Initial(t, c, limit), ops);
    RunKeepsOneOld(t, c, limit, ops);
    RunKeepsInvariant(t, c, limit, ops);
    RunKeepsLimit(Initial(t, c, limit), ops);
    var lo := if limit == 0 then s.next - 1 else if s.next > limit then s.next - limit else 0;
    var olds := set r | r in s.revisions && !Recent(s, r);
    OldAtMostOne(s, olds);
    SubsetSize(s.revisions.Keys, Span(lo, s.next) + olds);
    assert |s.revisions| == |s.revisions.Keys|;
  }

  lemma OldAtMostOne(s: Store, olds: set<nat>)
    requires AtMostOneOld(s) && olds == set r | r in s.revisions && !Recent(s, r)
    ensures |olds| <= 1
  {
    if olds != {} {
      var x :| x in olds;
      assert olds == {x};
    }
  }

  /** Numbers handed out never come back, and a retained revision never changes. */
  lemma {:induction false} RevisionsAreImmutable(s: Store, ops: seq<Op>, r: nat)
    requires Inv(s) && r < s.next && r in Run(s, ops).revisions
    ensures r in s.revisions && Run(s, ops).revisions[r] == s.revisions[r]
  {
    if ops != [] {
      var before, op := Run(s, ops[..|ops| - 1]), ops[|ops| - 1];
      NumbersGrow(s, ops[..|ops| - 1]);
      if WrittenRevision(before, op).Some? {
        WriteShape(before, op);
      } else {
        NoWriteShape(before, op);
      }
      RevisionsAreImmutable(s, ops[..|ops| - 1], r);
    }
  }

  lemma {:induction false} NumbersGrow(s: Store, ops: seq<Op>)
    ensures Run(s, ops).next >= s.next
  {
    if ops != [] {
      var before, op := Run(s, ops[..|ops| - 1]), ops[|ops| - 1];
      NumbersGrow(s, ops[..|ops| - 1]);
      if WrittenRevision(before, op).Some? {
        WriteShape(before, op);
      } else {
        NoWriteShape(before, op);
      }
    }
  }

  /** However clients interleave, at most one writer holding revision `e` succeeds. */
  lemma {:induction false} NoLostUpdates(t: Topology, c: Cipher, limit: nat, ops: seq<Op>, e: nat)
    ensures Winners(Initial(t, c, limit), ops, e) <= 1
    ensures Winners(Initial(t, c, limit), ops, e) == 1 ==> Run(Initial(t, c, limit), ops).current > e
  {
    if ops != [] {
      var s := Initial(t, c, limit);
      var before, op := Run(s, ops[..|ops| - 1]), ops[|ops| - 1];
      NoLostUpdates(t, c, limit, ops[..|ops| - 1], e);
      RunKeepsInvariant(t, c, limit, ops[..|ops| - 1]);
      if WrittenRevision(before, op).Some? {
        WriteShape(before, op);
      } else {
        NoWriteShape(before, op);
      }
    }
  }

  /** The new current revision is this topology, but for passwords and marks. */
  ghost predicate StoredAs(s: Store, after: Store, t: Topology)
  {
    && after.current == s.next && s.next !in s.revisions && after.current in after.revisions
    && after.revisions[after.current].edges == t.edges
    && after.revisions[after.current].memberships == t.memberships
    && RedactedForms(t.nodes, after.revisions[after.current].nodes)
  }

  lemma WriteStoresAll(s: Store, t: Topology)
    requires s.next !in s.revisions
    ensures StoredAs(s, Pruned(Inserted(s, t)), t)
  {
    PreparedForms(t.nodes, s.secrets, s.cipher);
    assert s.next in Pointers(Inserted(s, t));
  }

  /** A successful save stores every edge, membership and field of every node, except for passwords and marks. */
  lemma SaveStoresAll(s: Store, t: Topology, expected: nat, allowPlaintext: bool)
    requires Inv(s) && Save(s, t, expected, allowPlaintext).1.Ok?
    ensures StoredAs(s, Save(s, t, expected, allowPlaintext).0, t)
  {
    WriteStoresAll(s, t);
  }

  lemma {:induction false} MarkingForms(nodes: seq<Node>, id: string)
    ensures forall i: nat | i < |nodes| :: SameButSecret(nodes[i], MarkConfigured(nodes, id)[i])
  {
    if nodes != [] {
      MarkingForms(nodes[1..], id);
    }
  }

  lemma StoredThrough(s: Store, after: Store, t: Topology, u: Topology)
    requires StoredAs(s, after, u) && u.edges == t.edges && u.memberships == t.memberships
    requires |u.nodes| == |t.nodes| && forall i: nat | i < |t.nodes| :: SameButSecret(t.nodes[i], u.nodes[i])
    ensures StoredAs(s, after, t)
  {
  }

  /** A row that is there before any password is stored marks its extension. */
  lemma RowMarks(nodes: seq<Node>, secrets: map<string, Sealed>, c: Cipher, id: string)
    requires id in secrets
    ensures forall n | n in Prepared(nodes, secrets, c) && n.Extension? && n.id == id :: Marked(n)
  {
    forall i: nat | i < |nodes| && nodes[i].Extension? && nodes[i].id == id
      ensures Marked(Prepared(nodes, secrets, c)[i])
    {
      PreparedAt(nodes, secrets, c, i);
      var first := nodes[..i + 1];
      assert first[..0] == [];
      PutAllGrows(first, secrets, c, 0, id);
    }
    PreparedForms(nodes, secrets, c);
  }

  /**
   * A successful secret change stores the current topology again, except for passwords and marks, and
   * marks the extension it is for.
   */
  lemma SecretChangeStoresAll(s: Store, id: string, plaintext: string, expected: nat)
    requires Inv(s) && ChangeSecret(s, id, plaintext, expected).1.Ok?
    ensures var after := ChangeSecret(s, id, plaintext, expected).0;
      && StoredAs(s, after, s.revisions[s.current])
      && forall n | n in after.revisions[after.current].nodes && n.Extension? && n.id == id :: Marked(n)
  {
    var op, t := SecretOp(id, plaintext, expected), s.revisions[s.current];
    WriteShape(s, op);
    var (b, u) := Basis(s, op);
    MarkingForms(t.nodes, id);
    WriteStoresAll(b, u);
    StoredThrough(b, Pruned(Inserted(b, u)), t, u);
    RowMarks(u.nodes, b.secrets, b.cipher, id);
  }

  /** A rollback saves the old revision again under a new number, except for passwords and marks. */
  lemma RollbackRestores(s: Store, target: nat, expected: nat)
    requires Inv(s) && RollBack(s, target, expected).1.Ok?
    ensures StoredAs(s, RollBack(s, target, expected).0, s.revisions[target])
  {
    SaveStoresAll(s, s.revisions[target], expected, false);
  }

  /** A save succeeds exactly for the holder of the current revision, without plaintext unless it is allowed. */
  lemma SaveSucceedsIff(s: Store, t: Topology, expected: nat, allowPlaintext: bool)
    requires Inv(s)
    ensures Save(s, t, expected, allowPlaintext).1.Ok? <==>
              && expected == s.current
              && (allowPlaintext || forall n | n in t.nodes && n.Extension? :: n.sipPassword == None)
    ensures expected != s.current ==>
              Save(s, t, expected, allowPlaintext) == (s, Err(RevisionConflict(expected, s.current)))
    ensures expected == s.current && Save(s, t, expected, allowPlaintext).1.Err? ==>
              Save(s, t, expected, allowPlaintext) == (s, Err(PlaintextSecret))
  {
  }

  /** Between 12 and 256 printing characters other than blanks, semicolons and square brackets (59, 91, 93). */
  ghost predicate SecretAllowed(p: string)
  {
    && 12 <= |p| <= 256
    && forall i | 0 <= i < |p| :: var k := p[i] as int; 33 <= k <= 126 && k != 59 && k != 91 && k != 93
  }

  /** A secret change succeeds exactly for a printable secret of an existing extension on the current revision. */
  lemma SecretChangeSucceedsIff(s: Store, id: string, plaintext: string, expected: nat)
    requires Inv(s)
    ensures ChangeSecret(s, id, plaintext, expected).1.Ok? <==>
              && SecretAllowed(plaintext) && expected == s.current
              && var node := NodeById(s.revisions[s.current], id); node.Some? && node.value.Extension?
    ensures ChangeSecret(s, id, plaintext, expected).1.Err? ==>
              ChangeSecret(s, id, plaintext, expected)
                  == (s, Err(if !SecretAllowed(plaintext) then InvalidSecret
                             else if expected != s.current then RevisionConflict(expected, s.current)
                             else UnknownExtension))
  {
    var nodes := s.revisions[s.current].nodes;
    assert AllRedacted(nodes);
    MarkingKeeps(nodes, id);
  }

  /** Rolling back to an existing revision succeeds exactly for the holder of the current one. */
  lemma RollbackSucceedsIff(s: Store, target: nat, expected: nat)
    requires Inv(s)
    ensures RollBack(s, target, expected).1.Ok? <==> target in s.revisions && expected == s.current
    ensures RollBack(s, target, expected).1.Err? ==>
              RollBack(s, target, expected) == (s, Err(if target !in s.revisions then UnknownRevision(target)
                                                       else RevisionConflict(expected, s.current)))
  {
    if target in s.revisions {
      assert AllRedacted(s.revisions[target].nodes);
      SaveSucceedsIff(s, s.revisions[target], expected, false);
    }
  }

  // ---------------------------------------------------------------- secrets

  /** The plaintext a write gives for an extension, if any. */
  function GivenBy(s: Store, op: Op, id: string): Option<string>
    requires WrittenRevision(s, op).Some?
  {
    match op
    case SaveOp(t, _, _) => LastGiven(t.nodes, id)
    case SecretOp(x, p, _) => if x == id then Some(p) else None
    case RollbackOp(_, _) => None
  }

  /** The last plaintext stored for an extension since it was last absent from a written topology. */
  function LastStored(s: Store, ops: seq<Op>, id: string): Option<string>
  {
    if ops == [] then Plain(s.secrets, s.cipher, id)
    else
      var before, op := Run(s, ops[..|ops| - 1]), ops[|ops| - 1];
      if WrittenRevision(before, op).None? then LastStored(s, ops[..|ops| - 1], id)
      else if id !in ExtensionIds(Basis(before, op).1.nodes) then None
      else if GivenBy(before, op, id).Some? then GivenBy(before, op, id)
      else LastStored(s, ops[..|ops| - 1], id)
  }

  lemma InsertedPlain(nodes: seq<Node>, secrets: map<string, Sealed>, c: Cipher, id: string)
    ensures Plain(KeptSecrets(nodes, secrets, c), c, id)
         == if id !in ExtensionIds(nodes) then None
            else if LastGiven(nodes, id).Some? then LastGiven(nodes, id)
            else Plain(secrets, c, id)
  {
    PutAllRow(nodes, secrets, c, id);
  }

  lemma {:induction false} RedactedGivesNone(nodes: seq<Node>, id: string)
    requires AllRedacted(nodes)
    ensures LastGiven(nodes, id) == None
  {
    if nodes != [] {
      assert nodes[|nodes| - 1] in nodes;
      RedactedGivesNone(nodes[..|nodes| - 1], id);
    }
  }

  lemma {:induction false} MarkingKeeps(nodes: seq<Node>, id: string)
    requires AllRedacted(nodes)
    ensures AllRedacted(MarkConfigured(nodes, id)) && ExtensionIds(MarkConfigured(nodes, id)) == ExtensionIds(nodes)
  {
    if nodes != [] {
      var rest := MarkConfigured(nodes[1..], id);
      assert nodes[0] in nodes;
      MarkingKeeps(nodes[1..], id);
      var marked := if nodes[0].Extension? then nodes[0].(configured := Some(true)) else nodes[0];
      assert nodes == [nodes[0]] + nodes[1..];
      ExtensionIdsAdd(nodes[0], nodes[1..]);
      ExtensionIdsAdd(marked, nodes[1..]);
      ExtensionIdsAdd(nodes[0], rest);
    }
  }

  lemma ExtensionIdsAdd(n: Node, rest: seq<Node>)
    ensures ExtensionIds([n] + rest) == (if n.Extension? then {n.id} else {}) + ExtensionIds(rest)
  {
    assert forall m :: m in [n] + rest <==> m == n || m in rest;
  }

  /** The effect of one operation on what a reader of extension `id` gets. */
  lemma StepPlain(s: Store, op: Op, id: string)
    requires Inv(s)
    ensures Plain(Apply(s, op).secrets, Apply(s, op).cipher, id)
         == if WrittenRevision(s, op).None? then Plain(s.secrets, s.cipher, id)
            else if id !in ExtensionIds(Basis(s, op).1.nodes) then None
            else if GivenBy(s, op, id).Some? then GivenBy(s, op, id)
            else Plain(s.secrets, s.cipher, id)
  {
    if WrittenRevision(s, op).Some? {
      WriteShape(s, op);
      var (b, t) := Basis(s, op);
      InsertedPlain(t.nodes, b.secrets, b.cipher, id);
      BasisGives(s, op, id);
    } else {
      NoWriteShape(s, op);
      if op.RotateOp? {
        RotationKeepsPlain(s, op.from, op.to, op.auditFails, id);
      }
    }
  }

  lemma BasisGives(s: Store, op: Op, id: string)
    requires Inv(s) && WrittenRevision(s, op).Some?
    ensures !op.SaveOp? ==> LastGiven(Basis(s, op).1.nodes, id) == None
  {
    assert AllRedacted(s.revisions[s.current].nodes);
    match op
    case SecretOp(x, _, _) =>
      MarkingKeeps(s.revisions[s.current].nodes, x);
      RedactedGivesNone(MarkConfigured(s.revisions[s.current].nodes, x), id);
    case RollbackOp(target, _) =>
      RedactedGivesNone(s.revisions[target].nodes, id);
    case _ =>
  }

  /** A sealed password opens with the cipher that sealed it, for the extension it was sealed for, and not otherwise. */
  lemma OpensOnlyAsSealed(c: Cipher, d: Cipher, password: string, id: string, other: string)
    ensures Decrypt(d, Encrypt(c, password, id), other) == if d == c && other == id then Some(password) else None
  {
  }

  /** Rotation, whatever its outcome, keeps every plaintext. */
  lemma RotationKeepsPlain(s: Store, from: Cipher, to: Cipher, auditFails: bool, id: string)
    requires AllOpen(s.secrets, s.cipher)
    ensures var after := Rotate(s, from, to, auditFails).0;
            Plain(after.secrets, after.cipher, id) == Plain(s.secrets, s.cipher, id)
  {
  }

  /** A committed rotation leaves every row, and the cipher in memory, on the new key; an abort changes nothing. */
  lemma RotationOutcome(s: Store, to: Cipher, auditFails: bool)
    requires Inv(s)
    ensures var (after, r) := Rotate(s, s.cipher, to, auditFails);
      if auditFails then after == s && r == Err(AuditFailed)
      else
        && r == Ok(|s.secrets|) && after.cipher == to && after.secrets.Keys == s.secrets.Keys
        && forall id | id in s.secrets :: after.secrets[id].keyId == to.id && after.secrets[id].key == to.key
  {
  }

  /** Starting from a wrong key aborts as soon as there is a row to open. */
  lemma WrongKeyAborts(s: Store, from: Cipher, to: Cipher, auditFails: bool)
    requires Inv(s) && s.secrets != map[] && from.key != s.cipher.key
    ensures Rotate(s, from, to, auditFails) == (s, Err(SecretUnreadable))
  {
    var id :| id in s.secrets;
    assert Decrypt(s.cipher, s.secrets[id], id).Some?;
    assert Decrypt(from, s.secrets[id], id).None?;
  }

  lemma {:induction false} LastStoredIsPlain(t: Topology, c: Cipher, limit: nat, ops: seq<Op>, id: string)
    ensures var s := Run(Initial(t, c, limit), ops);
            Plain(s.secrets, s.cipher, id) == LastStored(Initial(t, c, limit), ops, id)
  {
    if ops != [] {
      LastStoredIsPlain(t, c, limit, ops[..|ops| - 1], id);
      RunKeepsInvariant(t, c, limit, ops[..|ops| - 1]);
      StepPlain(Run(Initial(t, c, limit), ops[..|ops| - 1]), ops[|ops| - 1], id);
    }
  }

  /** An extension shown with this password. */
  function Shown(n: Node, password: Option<string>): Node
  {
    if n.Extension? && password.Some? then n.(sipPassword := password, configured := Some(true)) else n
  }

  ghost predicate MissingRow(nodes: seq<Node>, secrets: map<string, Sealed>)
  {
    exists n | n in nodes :: Marked(n) && n.id !in secrets
  }

  /** With rows that all open, materializing fails exactly where a configured extension has no row. */
  lemma {:induction false} MaterializedExactly(nodes: seq<Node>, secrets: map<string, Sealed>, c: Cipher)
    requires AllOpen(secrets, c)
    ensures MaterializedNodes(nodes, secrets, c).Err? <==> MissingRow(nodes, secrets)
  {
    if nodes != [] {
      MaterializedExactly(nodes[1..], secrets, c);
      assert forall n :: n in nodes <==> n == nodes[0] || n in nodes[1..];
    }
  }

  lemma {:induction false} MaterializedAt(nodes: seq<Node>, secrets: map<string, Sealed>, c: Cipher, i: nat)
    requires AllOpen(secrets, c) && i < |nodes| && MaterializedNodes(nodes, secrets, c).Ok?
    ensures MaterializedNodes(nodes, secrets, c).value[i] == Shown(nodes[i], Plain(secrets, c, nodes[i].id))
  {
    if i > 0 {
      MaterializedAt(nodes[1..], secrets, c, i - 1);
    }
  }

  /** A stored revision materializes unless one of its configured extensions has lost its row. */
  lemma MaterializesIff(s: Store, r: nat)
    requires Inv(s) && r in s.revisions
    ensures Materialized(s, r).Ok? <==> !MissingRow(s.revisions[r].nodes, s.secrets)
  {
    MaterializedExactly(s.revisions[r].nodes, s.secrets, s.cipher);
  }

  /** The current revision always materializes, with the last plaintext stored for each extension. */
  lemma CurrentMaterializes(t: Topology, c: Cipher, limit: nat, ops: seq<Op>)
    ensures var s := Run(Initial(t, c, limit), ops);
      var m := Materialized(s, s.current);
      && s.current in s.revisions && m.Ok? && |m.value.nodes| == |s.revisions[s.current].nodes|
      && m.value.edges == s.revisions[s.current].edges && m.value.memberships == s.revisions[s.current].memberships
      && forall i: nat | i < |m.value.nodes| ::
           var n := s.revisions[s.current].nodes[i];
           m.value.nodes[i] == Shown(n, LastStored(Initial(t, c, limit), ops, n.id))
  {
    var s := Run(Initial(t, c, limit), ops);
    RunKeepsInvariant(t, c, limit, ops);
    var nodes := s.revisions[s.current].nodes;
    MaterializedExactly(nodes, s.secrets, s.cipher);
    forall i: nat | i < |nodes|
      ensures MaterializedNodes(nodes, s.secrets, s.cipher).value[i]
           == Shown(nodes[i], LastStored(Initial(t, c, limit), ops, nodes[i].id))
    {
      MaterializedAt(nodes, s.secrets, s.cipher, i);
      LastStoredIsPlain(t, c, limit, ops, nodes[i].id);
    }
  }

  /** A write without an extension makes every retained revision that relies on its secret unreadable. */
  lemma DroppingLosesSecret(s: Store, op: Op, r: nat, n: Node)
    requires Inv(s) && WrittenRevision(s, op).Some? && n.id !in ExtensionIds(Basis(s, op).1.nodes)
    requires r in Apply(s, op).revisions && n in Apply(s, op).revisions[r].nodes && Marked(n)
    ensures Materialized(Apply(s, op), r) == Err(SecretUnreadable)
  {
    StepKeeps(s, op);
    WriteShape(s, op);
    MaterializesIff(Apply(s, op), r);
    UnreadableOnly(Apply(s, op).revisions[r].nodes, Apply(s, op).secrets, Apply(s, op).cipher);
  }

  lemma {:induction false} UnreadableOnly(nodes: seq<Node>, secrets: map<string, Sealed>, c: Cipher)
    ensures MaterializedNodes(nodes, secrets, c).Err? ==> MaterializedNodes(nodes, secrets, c).error == SecretUnreadable
  {
    if nodes != [] {
      UnreadableOnly(nodes[1..], secrets, c);
    }
  }

  /** The activated store of a single phone: its stored copy relies on the secret. */
  lemma PhoneActivated(phone: Node, c: Cipher, limit: nat)
    requires phone.Extension? && phone.sipPassword.Some? && phone.sipPassword.value != ""
    ensures var s := Apply(Initial(Topology([phone], [], []), c, limit), ActivateOp(1));
            Inv(s) && s.current == 1 && s.lastGood == Some(1) && s.revisions[1].nodes == [Redacted(phone, true)]
  {
    var t := Topology([phone], [], []);
    InitialInv(t, c, limit);
    StepKeeps(Initial(t, c, limit), ActivateOp(1));
    PhoneMarked(phone, c);
  }

  /** Saving an empty draft then makes the last-good revision unreadable. */
  lemma EmptyDraftLosesSecret(s: Store, phone: Node)
    requires Inv(s) && s.current == 1 && s.lastGood == Some(1) && phone.Extension?
    requires s.revisions[1].nodes == [Redacted(phone, true)]
    ensures var after := Apply(s, SaveOp(Topology([], [], []), 1, false));
            after.lastGood == Some(1) && Materialized(after, 1) == Err(SecretUnreadable)
  {
    var drop, marked := SaveOp(Topology([], [], []), 1, false), Redacted(phone, true);
    WriteShape(s, drop);
    assert 1 in Pointers(Inserted(Basis(s, drop).0, Basis(s, drop).1));
    assert marked in Apply(s, drop).revisions[1].nodes;
    DroppingLosesSecret(s, drop, 1, marked);
  }

  /** So activating a topology with one phone and saving one without it loses the last-good revision. */
  lemma LastGoodMayBeUnreadable(phone: Node, password: string, c: Cipher, limit: nat)
    requires phone.Extension? && phone.sipPassword == Some(password) && password != ""
    ensures var ops := [ActivateOp(1), SaveOp(Topology([], [], []), 1, false)];
            var s := Run(Initial(Topology([phone], [], []), c, limit), ops);
            s.lastGood == Some(1) && Materialized(s, 1) == Err(SecretUnreadable)
  {
    var s := Initial(Topology([phone], [], []), c, limit);
    PhoneActivated(phone, c, limit);
    EmptyDraftLosesSecret(Apply(s, ActivateOp(1)), phone);
    RunTwo(s, ActivateOp(1), SaveOp(Topology([], [], []), 1, false));
  }

  lemma PhoneMarked(phone: Node, c: Cipher)
    requires phone.Extension? && phone.sipPassword.Some? && phone.sipPassword.value != ""
    ensures Prepared([phone], map[], c) == [Redacted(phone, true)]
  {
    var nodes := [phone];
    PreparedAt(nodes, map[], c, 0);
    assert nodes[..1] == nodes && nodes[..0] == [];
    assert phone.id in PutAll(nodes, map[], c);
  }

  lemma RunTwo(s: Store, a: Op, b: Op)
    ensures Run(s, [a, b]) == Apply(Apply(s, a), b)
  {
    assert [a, b][..1] == [a] && [a][..0] == [];
    assert Run(s, [a]) == Apply(Run(s, []), a);
  }
}
