/** The tables of PbxDatabase as a value, and what each transaction does to them (backend/src/model/database.ts). */
module StoreSpec {
  import opened Text
  import opened Topologies

  // ---------------------------------------------------------------- encryption, symbolically

  /** A cipher holds a key; its id is a digest of the key, so different keys may share an id. */
  datatype Cipher = Cipher(key: nat, id: string)

  /** A sealed value opens only with its key and in its context. */
  datatype Sealed = Sealed(keyId: string, key: nat, context: string, plaintext: string)

  function Encrypt(c: Cipher, plaintext: string, context: string): Sealed
  {
    Sealed(c.id, c.key, context, plaintext)
  }

  function Decrypt(c: Cipher, v: Sealed, context: string): Option<string>
  {
    if v.keyId != c.id then None
    else if v.key == c.key && v.context == context then Some(v.plaintext)
    else None
  }

  // ---------------------------------------------------------------- the tables

  datatype Error =
    | RevisionConflict(expected: nat, current: nat)
    | PlaintextSecret
    | UnknownRevision(revision: nat)
    | UnknownExtension
    | InvalidSecret
    | SecretUnreadable
    | ConstraintViolation
    | AuditFailed

  datatype Result<+T> = Ok(value: T) | Err(error: Error)

  datatype Store = Store(
    revisions: map<nat, Topology>, next: nat, current: nat, active: Option<nat>, lastGood: Option<nat>,
    secrets: map<string, Sealed>, cipher: Cipher, deployments: map<string, nat>, limit: nat)

  function ExtensionIds(nodes: seq<Node>): set<string> { set n | n in nodes && n.Extension? :: n.id }

  // ---------------------------------------------------------------- preparing secrets

  predicate CarriesPlaintext(nodes: seq<Node>)
  {
    exists n | n in nodes :: n.Extension? && n.sipPassword.Some?
  }

  function PutOne(n: Node, secrets: map<string, Sealed>, c: Cipher): map<string, Sealed>
  {
    if n.Extension? && n.sipPassword.Some? && n.sipPassword.value != "" then
      secrets[n.id := Encrypt(c, n.sipPassword.value, n.id)]
    else secrets
  }

  /** The secret table after the passwords of these nodes have been stored in order. */
  function PutAll(nodes: seq<Node>, secrets: map<string, Sealed>, c: Cipher): map<string, Sealed>
  {
    if nodes == [] then secrets
    else PutOne(nodes[|nodes| - 1], PutAll(nodes[..|nodes| - 1], secrets, c), c)
  }

  function Redacted(n: Node, configured: bool): Node
  {
    if n.Extension? then n.(sipPassword := None, configured := Some(configured)) else n
  }

  /** Every node without its password, marked by whether a secret is stored when it is reached. */
  function Prepared(nodes: seq<Node>, secrets: map<string, Sealed>, c: Cipher): (r: seq<Node>)
    ensures |r| == |nodes|
  {
    if nodes == [] then []
    else
      var last := nodes[|nodes| - 1];
      Prepared(nodes[..|nodes| - 1], secrets, c) + [Redacted(last, last.id in PutAll(nodes, secrets, c))]
  }

  /** Rows of extensions that are no longer part of the topology are deleted. */
  function KeptSecrets(nodes: seq<Node>, secrets: map<string, Sealed>, c: Cipher): map<string, Sealed>
  {
    var all := PutAll(nodes, secrets, c);
    map id | id in all && id in ExtensionIds(nodes) :: all[id]
  }

  // ---------------------------------------------------------------- pruning

  function Newer(revisions: set<nat>, r: nat): set<nat> { set q | q in revisions && q > r }

  function Pointers(s: Store): set<nat>
  {
    {s.current} + (if s.active.Some? then {s.active.value} else {})
        + (if s.lastGood.Some? then {s.lastGood.value} else {})
  }

  /** A revision survives if it is a pointer or fewer than `limit` revisions are newer. */
  predicate Survives(s: Store, r: nat) { r in Pointers(s) || |Newer(s.revisions.Keys, r)| < s.limit }

  function Pruned(s: Store): Store
  {
    s.(revisions := map r | r in s.revisions && Survives(s, r) :: s.revisions[r],
       deployments := map d | d in s.deployments
           && (s.deployments[d] in s.revisions ==> Survives(s, s.deployments[d])) :: s.deployments[d])
  }

  // ---------------------------------------------------------------- transactions

  /** The prepared topology inserted as the new current revision, before pruning. */
  function Inserted(s: Store, t: Topology): Store
  {
    s.(revisions := s.revisions[s.next := t.(nodes := Prepared(t.nodes, s.secrets, s.cipher))],
       next := s.next + 1, current := s.next, secrets := KeptSecrets(t.nodes, s.secrets, s.cipher))
  }

  /** saveTopology: a new revision on top of the expected one, or an error and no change. */
  function Save(s: Store, t: Topology, expected: nat, allowPlaintext: bool): (Store, Result<nat>)
  {
    if s.current != expected then (s, Err(RevisionConflict(expected, s.current)))
    else if s.current !in s.revisions then (s, Err(UnknownRevision(s.current)))
    else if CarriesPlaintext(t.nodes) && !allowPlaintext then (s, Err(PlaintextSecret))
    else (Pruned(Inserted(s, t)), Ok(s.next))
  }

  predicate PrintableSecret(p: string)
  {
    && 12 <= |p| <= 256
    && forall i | 0 <= i < |p| :: '!' <= p[i] <= '~' && p[i] != ';' && p[i] != '[' && p[i] != ']'
  }

  function MarkConfigured(nodes: seq<Node>, id: string): (r: seq<Node>)
    ensures |r| == |nodes|
  {
    if nodes == [] then []
    else if nodes[0].id == id then
      [if nodes[0].Extension? then nodes[0].(configured := Some(true)) else nodes[0]] + nodes[1..]
    else [nodes[0]] + MarkConfigured(nodes[1..], id)
  }

  /** updateSipSecret: store the secret and save the marked topology, all or nothing. */
  function ChangeSecret(s: Store, id: string, plaintext: string, expected: nat): (Store, Result<nat>)
  {
    if !PrintableSecret(plaintext) then (s, Err(InvalidSecret))
    else if s.current !in s.revisions then (s, Err(UnknownRevision(s.current)))
    else if s.current != expected then (s, Err(RevisionConflict(expected, s.current)))
    else
      var t := s.revisions[s.current];
      var node := NodeById(t, id);
      if node.None? || !node.value.Extension? then (s, Err(UnknownExtension))
      else
        var (after, r) := Save(s.(secrets := s.secrets[id := Encrypt(s.cipher, plaintext, id)]),
                               t.(nodes := MarkConfigured(t.nodes, id)), expected, false);
        if r.Ok? then (after, r) else (s, r)
  }

  /** rollbackTopology: an old revision is saved again as a new one. */
  function RollBack(s: Store, target: nat, expected: nat): (Store, Result<nat>)
  {
    if target !in s.revisions then (s, Err(UnknownRevision(target)))
    else Save(s, s.revisions[target], expected, false)
  }

  /** markDeploymentActive: both pointers, subject to the foreign keys. */
  function MarkActive(s: Store, revision: nat): (Store, Result<()>)
  {
    if revision !in s.revisions then (s, Err(ConstraintViolation))
    else (s.(active := Some(revision), lastGood := Some(revision)), Ok(()))
  }

  /** createDeployment: a fresh id for an existing revision. */
  function CreateDeployment(s: Store, id: string, revision: nat): (Store, Result<()>)
  {
    if id in s.deployments || revision !in s.revisions then (s, Err(ConstraintViolation))
    else (s.(deployments := s.deployments[id := revision]), Ok(()))
  }

  /** An extension with its password put back, if a row for it exists. */
  function Filled(n: Node, secrets: map<string, Sealed>, c: Cipher): Node
  {
    if n.Extension? && n.id in secrets then
      n.(sipPassword := Decrypt(c, secrets[n.id], n.id), configured := Some(true))
    else n
  }

  /** All passwords put back; fails where a row cannot be opened or a configured one is missing. */
  function MaterializedNodes(nodes: seq<Node>, secrets: map<string, Sealed>, c: Cipher): (r: Result<seq<Node>>)
    ensures r.Ok? ==> |r.value| == |nodes|
  {
    if nodes == [] then Ok([])
    else
      var n := nodes[0];
      if n.Extension? && n.id in secrets && Decrypt(c, secrets[n.id], n.id).None? then Err(SecretUnreadable)
      else if n.Extension? && n.id !in secrets && n.configured == Some(true) then Err(SecretUnreadable)
      else
        var rest := MaterializedNodes(nodes[1..], secrets, c);
        if rest.Err? then rest
        else
          Ok([Filled(n, secrets, c)] + rest.value)
  }

  function Materialized(s: Store, revision: nat): Result<Topology>
  {
    if revision !in s.revisions then Err(UnknownRevision(revision))
    else
      var t := s.revisions[revision];
      match MaterializedNodes(t.nodes, s.secrets, s.cipher)
      case Err(e) => Err(e)
      case Ok(nodes) => Ok(t.(nodes := nodes))
  }

  predicate AllOpen(secrets: map<string, Sealed>, c: Cipher)
  {
    forall id | id in secrets :: Decrypt(c, secrets[id], id).Some?
  }

  function Reencrypted(secrets: map<string, Sealed>, from: Cipher, to: Cipher): map<string, Sealed>
    requires AllOpen(secrets, from)
  {
    map id | id in secrets :: Encrypt(to, Decrypt(from, secrets[id], id).value, id)
  }

  /** rotateSecrets: every row re-encrypted and the cipher replaced, or no change at all. */
  function Rotate(s: Store, from: Cipher, to: Cipher, auditFails: bool): (Store, Result<nat>)
  {
    if !AllOpen(s.secrets, from) then (s, Err(SecretUnreadable))
    else if auditFails then (s, Err(AuditFailed))
    else (s.(secrets := Reencrypted(s.secrets, from, to), cipher := to), Ok(|s.secrets|))
  }

  /** insertInitialTopology on empty tables. */
  function Initial(t: Topology, c: Cipher, limit: nat): Store
  {
    Store(map[1 := t.(nodes := Prepared(t.nodes, map[], c))], 2, 1, None, None,
          KeptSecrets(t.nodes, map[], c), c, map[], limit)
  }
}
