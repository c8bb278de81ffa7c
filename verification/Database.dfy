/** PbxDatabase: the class whose transactions update the tables (backend/src/model/database.ts). */
module Database {
  import opened Text
  import opened Topologies
  import opened StoreSpec

  class PbxDatabase {
    var revisions: map<nat, Topology>
    var nextRevision: nat
    var currentRevision: nat
    var activeRevision: Option<nat>
    var lastGoodRevision: Option<nat>
    var secrets: map<string, Sealed>
    var cipher: Cipher
    var deployments: map<string, nat>
    const revisionLimit: nat

    ghost function State(): Store
      reads this
    {
      Store(revisions, nextRevision, currentRevision, activeRevision, lastGoodRevision, secrets, cipher, deployments,
            revisionLimit)
    }

    constructor (t: Topology, c: Cipher, limit: nat)
      ensures State() == Initial(t, c, limit)
    {
      revisionLimit := limit;
      cipher, secrets := c, map[];
      revisions, nextRevision, currentRevision := map[], 1, 0;
      activeRevision, lastGoodRevision, deployments := None, None, map[];
      new;
      var prepared := PrepareSecrets(t, true);
      revisions := revisions[nextRevision := prepared.value];
      currentRevision := nextRevision;
      nextRevision := nextRevision + 1;
    }

    method PutSecret(id: string, plaintext: string)
      modifies this`secrets
      ensures secrets == old(secrets)[id := Encrypt(cipher, plaintext, id)]
    {
      secrets := secrets[id := Encrypt(cipher, plaintext, id)];
    }

    /** Stores the passwords it meets, strips them, and drops rows of vanished extensions. */
    method PrepareSecrets(input: Topology, allowPlaintext: bool) returns (r: Result<Topology>)
      modifies this`secrets
      ensures r.Err? <==> CarriesPlaintext(input.nodes) && !allowPlaintext
      ensures r.Err? ==> r.error == PlaintextSecret
      ensures r.Ok? ==>
                && r.value == input.(nodes := Prepared(input.nodes, old(secrets), cipher))
                && secrets == KeptSecrets(input.nodes, old(secrets), cipher)
    {
      var nodes: seq<Node>, extensionIds: set<string> := [], {};
      var k := 0;
      while k < |input.nodes|
        invariant 0 <= k <= |input.nodes|
        invariant nodes == Prepared(input.nodes[..k], old(secrets), cipher)
        invariant secrets == PutAll(input.nodes[..k], old(secrets), cipher)
        invariant extensionIds == ExtensionIds(input.nodes[..k])
        invariant allowPlaintext || !CarriesPlaintext(input.nodes[..k])
      {
        var n := input.nodes[k];
        PreparedStep(input.nodes, k, old(secrets), cipher);
        PlaintextStep(input.nodes, k);
        if n.Extension? {
          extensionIds := extensionIds + {n.id};
          if n.sipPassword.Some? {
            if !allowPlaintext {
              return Err(PlaintextSecret);
            }
            if n.sipPassword.value != "" {
              PutSecret(n.id, n.sipPassword.value);
            }
          }
        }
        nodes := nodes + [Redacted(n, n.id in secrets)];
        k := k + 1;
      }
      assert input.nodes[..k] == input.nodes;
      DeleteSecretsExcept(extensionIds);
      r := Ok(input.(nodes := nodes));
    }

    method DeleteSecretsExcept(extensionIds: set<string>)
      modifies this`secrets
      ensures secrets == map id | id in old(secrets) && id in extensionIds :: old(secrets)[id]
    {
      var rows := secrets.Keys;
      while rows != {}
        invariant rows <= old(secrets).Keys
        invariant forall id :: id in secrets <==> id in old(secrets) && (id in rows || id in extensionIds)
        invariant forall id | id in secrets :: secrets[id] == old(secrets)[id]
        decreases |rows|
      {
        var id :| id in rows;
        if id !in extensionIds {
          secrets := secrets - {id};
        }
        rows := rows - {id};
      }
    }

    /** `SELECT revision ... ORDER BY revision DESC` */
    method RevisionsDescending() returns (rows: seq<nat>)
      ensures forall r :: r in rows <==> r in revisions
      ensures forall i, j | 0 <= i < j < |rows| :: rows[i] > rows[j]
    {
      rows := [];
      var left := revisions.Keys;
      while left != {}
        invariant left <= revisions.Keys
        invariant forall r :: r in rows <==> r in revisions && r !in left
        invariant forall i, j | 0 <= i < j < |rows| :: rows[i] > rows[j]
        invariant forall i, r | 0 <= i < |rows| && r in left :: rows[i] > r
        decreases |left|
      {
        var top :| top in left;
        var others := left - {top};
        while others != {}
          invariant top in left && others <= left
          invariant forall r | r in left && r !in others :: r <= top
          decreases |others|
        {
          var r :| r in others;
          if r > top { top := r; }
          others := others - {r};
        }
        rows := rows + [top];
        left := left - {top};
      }
    }

    /** pruneRevisions: delete rows beyond the limit that no pointer needs, deployments first. */
    method PruneRevisions()
      modifies this`revisions, this`deployments
      ensures State() == Pruned(old(State()))
    {
      var keep := {currentRevision};
      if activeRevision.Some? { keep := keep + {activeRevision.value}; }
      if lastGoodRevision.Some? { keep := keep + {lastGoodRevision.value}; }
      assert keep == Pointers(State());
      var rows := RevisionsDescending();
      var first := if revisionLimit < |rows| then revisionLimit else |rows|;
      OlderRows(State(), rows, first, keep);
      DeleteRows(rows[first..], keep);
    }

    method DeleteRows(rows: seq<nat>, keep: set<nat>)
      modifies this`revisions, this`deployments
      ensures revisions == RevisionsWithout(old(revisions), rows, keep)
      ensures deployments == DeploymentsWithout(old(deployments), rows, keep)
    {
      var k := 0;
      while k < |rows|
        invariant 0 <= k <= |rows|
        invariant revisions == RevisionsWithout(old(revisions), rows[..k], keep)
        invariant deployments == DeploymentsWithout(old(deployments), rows[..k], keep)
      {
        WithoutStep(old(revisions), old(deployments), rows, k, keep);
        if rows[k] !in keep {
          deployments := WithoutRevision(deployments, rows[k]);
          revisions := revisions - {rows[k]};
        }
        k := k + 1;
      }
      assert rows[..k] == rows;
    }

    /** saveTopology, as one transaction: an error leaves every table as it was. */
    method SaveTopology(t: Topology, expected: nat, allowPlaintext: bool) returns (r: Result<nat>)
      modifies this
      ensures (State(), r) == Save(old(State()), t, expected, allowPlaintext)
    {
      if currentRevision != expected {
        return Err(RevisionConflict(expected, currentRevision));
      }
      if currentRevision !in revisions {
        return Err(UnknownRevision(currentRevision));
      }
      var snapshot := secrets;
      var prepared := PrepareSecrets(t, allowPlaintext);
      if prepared.Err? {
        secrets := snapshot;
        return Err(prepared.error);
      }
      var revision := nextRevision;
      revisions := revisions[revision := prepared.value];
      nextRevision := nextRevision + 1;
      currentRevision := revision;
      PruneRevisions();
      r := Ok(revision);
    }

    /** updateSipSecret: stores the secret and saves the marked topology in the same transaction. */
    method UpdateSipSecret(id: string, plaintext: string, expected: nat) returns (r: Result<nat>)
      modifies this
      ensures (State(), r) == ChangeSecret(old(State()), id, plaintext, expected)
    {
      if !PrintableSecret(plaintext) {
        return Err(InvalidSecret);
      }
      if currentRevision !in revisions {
        return Err(UnknownRevision(currentRevision));
      }
      if currentRevision != expected {
        return Err(RevisionConflict(expected, currentRevision));
      }
      var t := revisions[currentRevision];
      var node := NodeById(t, id);
      if node.None? || !node.value.Extension? {
        return Err(UnknownExtension);
      }
      var snapshot := secrets;
      PutSecret(id, plaintext);
      r := SaveTopology(t.(nodes := MarkConfigured(t.nodes, id)), expected, false);
      if r.Err? {
        secrets := snapshot;
      }
    }

    method RollbackTopology(target: nat, expected: nat) returns (r: Result<nat>)
      modifies this
      ensures (State(), r) == RollBack(old(State()), target, expected)
    {
      if target !in revisions {
        return Err(UnknownRevision(target));
      }
      r := SaveTopology(revisions[target], expected, false);
    }

    method MarkDeploymentActive(revision: nat) returns (r: Result<()>)
      modifies this`activeRevision, this`lastGoodRevision
      ensures (State(), r) == MarkActive(old(State()), revision)
    {
      if revision !in revisions {
        return Err(ConstraintViolation);
      }
      activeRevision, lastGoodRevision := Some(revision), Some(revision);
      r := Ok(());
    }

    method CreateDeployment(id: string, revision: nat) returns (r: Result<()>)
      modifies this`deployments
      ensures (State(), r) == StoreSpec.CreateDeployment(old(State()), id, revision)
    {
      if id in deployments || revision !in revisions {
        return Err(ConstraintViolation);
      }
      deployments := deployments[id := revision];
      r := Ok(());
    }

    /** materializedTopology: the stored revision with every password put back. */
    method MaterializedTopology(revision: Option<nat>) returns (r: Result<Topology>)
      ensures r == Materialized(State(), if revision.Some? then revision.value else currentRevision)
    {
      var selected := if revision.Some? then revision.value else currentRevision;
      if selected !in revisions {
        return Err(UnknownRevision(selected));
      }
      var t := revisions[selected];
      var nodes: seq<Node> := [];
      var k := 0;
      assert t.nodes[k..] == t.nodes;
      while k < |t.nodes|
        invariant 0 <= k <= |t.nodes|
        invariant Continues(MaterializedNodes(t.nodes, secrets, cipher), nodes,
                            MaterializedNodes(t.nodes[k..], secrets, cipher))
      {
        var n := t.nodes[k];
        assert t.nodes[k..][0] == n && t.nodes[k..][1..] == t.nodes[k + 1..];
        if n.Extension? {
          if n.id in secrets {
            if Decrypt(cipher, secrets[n.id], n.id).None? {
              return Err(SecretUnreadable);
            }
          } else if n.configured == Some(true) {
            return Err(SecretUnreadable);
          }
        }
        nodes := nodes + [Filled(n, secrets, cipher)];
        k := k + 1;
      }
      assert t.nodes[k..] == [] && MaterializedNodes(t.nodes, secrets, cipher).value == nodes;
      r := Ok(t.(nodes := nodes));
    }

    /** rotateSecrets: rows are updated one by one; any failure restores all of them and the cipher. */
    method RotateSecrets(oldCipher: Cipher, newCipher: Cipher, auditFails: bool) returns (r: Result<nat>)
      modifies this`secrets, this`cipher
      ensures (State(), r) == Rotate(old(State()), oldCipher, newCipher, auditFails)
    {
      var snapshot := secrets;
      var readable := ReencryptRows(oldCipher, newCipher);
      if !readable {
        secrets := snapshot;
        return Err(SecretUnreadable);
      }
      if auditFails {
        secrets := snapshot;
        return Err(AuditFailed);
      }
      cipher := newCipher;
      r := Ok(|snapshot|);
    }

    method ReencryptRows(oldCipher: Cipher, newCipher: Cipher) returns (ok: bool)
      modifies this`secrets
      ensures ok <==> AllOpen(old(secrets), oldCipher)
      ensures ok ==> secrets == Reencrypted(old(secrets), oldCipher, newCipher)
    {
      ghost var before := secrets;
      var rows := secrets.Keys;
      while rows != {}
        invariant rows <= before.Keys
        invariant AllOpen(before - rows, oldCipher)
        invariant secrets == PartlyRotated(before, rows, oldCipher, newCipher)
        decreases |rows|
      {
        var id :| id in rows;
        RotateOneMore(before, rows, id, oldCipher, newCipher);
        var plaintext := Decrypt(oldCipher, secrets[id], id);
        if plaintext.None? {
          return false;
        }
        secrets := secrets[id := Encrypt(newCipher, plaintext.value, id)];
        rows := rows - {id};
      }
      assert before - rows == before;
      ok := true;
    }
  }

  predicate Continues(whole: Result<seq<Node>>, done: seq<Node>, rest: Result<seq<Node>>)
  {
    if rest.Ok? then whole.Ok? && whole.value == done + rest.value else whole == rest
  }

  /** The table while the rows in `left` are still under the old key. */
  function PartlyRotated(secrets: map<string, Sealed>, left: set<string>, from: Cipher, to: Cipher): map<string, Sealed>
    requires AllOpen(secrets - left, from)
  {
    var done := secrets - left;
    map id | id in secrets :: if id in done then Encrypt(to, Decrypt(from, done[id], id).value, id) else secrets[id]
  }

  lemma RotateOneMore(secrets: map<string, Sealed>, left: set<string>, id: string, from: Cipher, to: Cipher)
    requires AllOpen(secrets - left, from) && left <= secrets.Keys && id in left
    ensures PartlyRotated(secrets, left, from, to)[id] == secrets[id]
    ensures Decrypt(from, secrets[id], id).None? ==> !AllOpen(secrets, from)
    ensures Decrypt(from, secrets[id], id).Some? ==>
              && AllOpen(secrets - (left - {id}), from)
              && PartlyRotated(secrets, left - {id}, from, to)
              == PartlyRotated(secrets, left, from, to)[id := Encrypt(to, Decrypt(from, secrets[id], id).value, id)]
  {
  }

  function RevisionsWithout(all: map<nat, Topology>, beyond: seq<nat>, keep: set<nat>): map<nat, Topology>
  {
    map r | r in all && (r in beyond ==> r in keep) :: all[r]
  }

  function DeploymentsWithout(all: map<string, nat>, beyond: seq<nat>, keep: set<nat>): map<string, nat>
  {
    map d | d in all && (all[d] in beyond ==> all[d] in keep) :: all[d]
  }

  function WithoutRevision(deployments: map<string, nat>, r: nat): map<string, nat>
  {
    map d | d in deployments && deployments[d] != r :: deployments[d]
  }

  lemma PreparedStep(nodes: seq<Node>, k: nat, secrets: map<string, Sealed>, c: Cipher)
    requires k < |nodes|
    ensures PutAll(nodes[..k + 1], secrets, c) == PutOne(nodes[k], PutAll(nodes[..k], secrets, c), c)
    ensures Prepared(nodes[..k + 1], secrets, c)
         == Prepared(nodes[..k], secrets, c) + [Redacted(nodes[k], nodes[k].id in PutAll(nodes[..k + 1], secrets, c))]
  {
    var seen := nodes[..k + 1];
    assert seen[..k] == nodes[..k] && seen[k] == nodes[k];
  }

  lemma PlaintextStep(nodes: seq<Node>, k: nat)
    requires k < |nodes|
    ensures ExtensionIds(nodes[..k + 1]) == ExtensionIds(nodes[..k]) + if nodes[k].Extension? then {nodes[k].id} else {}
    ensures CarriesPlaintext(nodes[..k + 1])
       <==> CarriesPlaintext(nodes[..k]) || (nodes[k].Extension? && nodes[k].sipPassword.Some?)
    ensures CarriesPlaintext(nodes[..k + 1]) ==> CarriesPlaintext(nodes)
  {
    assert nodes[..k + 1] == nodes[..k] + [nodes[k]];
    assert forall n :: n in nodes[..k + 1] <==> n in nodes[..k] || n == nodes[k];
  }

  lemma WithoutStep(revisions: map<nat, Topology>, deployments: map<string, nat>, rows: seq<nat>, k: nat,
                    keep: set<nat>)
    requires k < |rows|
    ensures RevisionsWithout(revisions, rows[..k + 1], keep)
         == if rows[k] in keep then RevisionsWithout(revisions, rows[..k], keep)
            else RevisionsWithout(revisions, rows[..k], keep) - {rows[k]}
    ensures DeploymentsWithout(deployments, rows[..k + 1], keep)
         == if rows[k] in keep then DeploymentsWithout(deployments, rows[..k], keep)
            else WithoutRevision(DeploymentsWithout(deployments, rows[..k], keep), rows[k])
  {
    assert rows[..k + 1] == rows[..k] + [rows[k]];
    assert forall r :: r in rows[..k + 1] <==> r in rows[..k] || r == rows[k];
  }

  function SetOf(rows: seq<nat>): set<nat> { set r | r in rows }

  lemma {:induction false} DistinctSize(rows: seq<nat>)
    requires forall i, j | 0 <= i < j < |rows| :: rows[i] > rows[j]
    ensures |SetOf(rows)| == |rows|
  {
    if rows != [] {
      var k := |rows| - 1;
      DistinctSize(rows[..k]);
      assert SetOf(rows) == SetOf(rows[..k]) + {rows[k]};
    }
  }

  /** In a descending listing, as many revisions are newer than a row as stand before it. */
  lemma NewerThanRow(rows: seq<nat>, all: set<nat>, k: nat)
    requires k < |rows|
    requires forall i, j | 0 <= i < j < |rows| :: rows[i] > rows[j]
    requires forall r :: r in rows <==> r in all
    ensures |Newer(all, rows[k])| == k
  {
    DistinctSize(rows[..k]);
    forall q ensures q in Newer(all, rows[k]) <==> q in SetOf(rows[..k]) {
      if q in Newer(all, rows[k]) {
        var i :| 0 <= i < |rows| && rows[i] == q;
        assert i < k;
        assert rows[..k][i] == q;
      }
    }
    assert Newer(all, rows[k]) == SetOf(rows[..k]);
  }

  /** The rows from position `limit` on are exactly those with at least `limit` newer ones. */
  lemma BeyondLimit(rows: seq<nat>, all: set<nat>, limit: nat, first: nat, r: nat)
    requires forall i, j | 0 <= i < j < |rows| :: rows[i] > rows[j]
    requires forall q :: q in rows <==> q in all
    requires first == if limit < |rows| then limit else |rows|
    ensures r in rows[first..] <==> r in all && |Newer(all, r)| >= limit
  {
    if r in all {
      var k :| 0 <= k < |rows| && rows[k] == r;
      NewerThanRow(rows, all, k);
      if k >= first {
        assert rows[first..][k - first] == r;
      }
    }
  }

  lemma OlderRows(s: Store, rows: seq<nat>, first: nat, keep: set<nat>)
    requires forall i, j | 0 <= i < j < |rows| :: rows[i] > rows[j]
    requires forall r :: r in rows <==> r in s.revisions.Keys
    requires first == if s.limit < |rows| then s.limit else |rows|
    requires keep == Pointers(s)
    ensures RevisionsWithout(s.revisions, rows[first..], keep) == Pruned(s).revisions
    ensures DeploymentsWithout(s.deployments, rows[first..], keep) == Pruned(s).deployments
  {
    forall r: nat ensures r in rows[first..] <==> r in s.revisions && |Newer(s.revisions.Keys, r)| >= s.limit {
      BeyondLimit(rows, s.revisions.Keys, s.limit, first, r);
    }
  }
}
