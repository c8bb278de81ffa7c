/** The staged deployment protocol (backend/src/asterisk/deploy.ts): activate, verify, commit or roll back. */
module Deploy {
  import opened Text
  import opened Topologies
  import opened StoreSpec
  import opened StoreTheorems
  import opened Database

  /** The name of the version directory that exists before the first deployment. */
  const BOOTSTRAP := "bootstrap"

  // ---------------------------------------------------------------- the world around a deployment

  /** Whether a reload is reported as done, and whether Asterisk really read the linked files. */
  datatype Reload = Reload(reported: bool, loads: bool)

  /** What Asterisk answers to a health check, besides the canary. */
  datatype Health = Health(versionAnswers: bool, internalContext: bool, endpoints: nat)

  /**
   * Which steps fail, what Asterisk answers, and what other clients write at the await points.
   * `amiFails` covers both the connection and the version query that precedes the switch, `createFails`
   * and `commitFails` a statement that throws although the revision exists (a full disk, a busy database).
   */
  datatype World = World(
    createFails: bool, stageFails: bool, before: seq<Op>, preflightFails: bool, amiFails: bool, readLinkFails: bool,
    switchFails: bool, during: seq<Op>, reload: Reload, health: Health, lastGoodFails: bool, commitFails: bool,
    finishFails: bool, auditFails: bool, backSwitchFails: bool, after: seq<Op>, backAmiFails: bool, backReload: Reload,
    backHealth: Health, lateRecordFails: bool)

  /** The database, the two links, the configuration Asterisk runs and the staged version directories. */
  datatype System = System(
    store: Store, current: Option<string>, lastGood: Option<string>, running: Option<string>, versions: set<string>)

  datatype Report = Report(
    deployed: bool, configsWritten: bool, activated: bool, reloaded: bool, runtimeHealthy: bool, rolledBack: bool)

  // ---------------------------------------------------------------- the steps

  datatype Activation = Activation(sys: System, staged: bool, activated: bool)

  function Activate(s: System, id: string, w: World): Activation
  {
    if w.stageFails || id in s.versions then Activation(s, false, false)
    else
      var staged := s.(versions := s.versions + {id}, store := Run(s.store, w.before));
      if w.preflightFails || w.amiFails || w.readLinkFails || w.switchFails then Activation(staged, true, false)
      else Activation(staged.(current := Some(id)), true, true)
  }

  function AfterReload(s: System, r: Reload): System
  {
    if r.loads then s.(running := s.current) else s
  }

  function ExtensionCount(nodes: seq<Node>): nat
  {
    if nodes == [] then 0 else ExtensionCount(nodes[1..]) + if nodes[0].Extension? then 1 else 0
  }

  /** runtimeHealth: the canary answers only if Asterisk runs the expected deployment. */
  predicate Healthy(running: Option<string>, h: Health, t: Topology, expected: Option<string>)
  {
    && h.versionAnswers && h.internalContext
    && (expected.Some? ==> running == expected)
    && h.endpoints >= ExtensionCount(t.nodes)
  }

  datatype Verification = Verification(sys: System, reloaded: bool, committed: bool, deployed: bool)

  function Verify(s: System, t: Topology, revision: nat, id: string, w: World): Verification
  {
    var s1 := AfterReload(s.(store := Run(s.store, w.during)), w.reload);
    if !w.reload.reported then Verification(s1, false, false, false)
    else if !Healthy(s1.running, w.health, t, Some(id)) || w.lastGoodFails then Verification(s1, true, false, false)
    else
      var s2 := s1.(lastGood := Some(id));
      var (marked, r) := MarkActive(s2.store, revision);
      if w.commitFails || r.Err? then Verification(s2, true, false, false)
      else Verification(s2.(store := marked), true, true, !(w.finishFails || w.auditFails))
  }

  datatype Restoration = Restoration(sys: System, restored: bool, rolledBack: bool)

  /** The canary a rolled-back link should answer with. */
  function ExpectedCanary(previous: Option<string>): Option<string>
  {
    if previous == Some(BOOTSTRAP) then None else previous
  }

  /** The revision whose topology the rolled-back runtime is checked against. */
  function BaselineRevision(s: Store): nat { if s.lastGood.Some? then s.lastGood.value else s.current }

  function Restore(s: System, previous: Option<string>, w: World): Restoration
  {
    if w.backSwitchFails then Restoration(s, false, false)
    else
      var s1 := s.(current := previous, store := Run(s.store, w.after));
      if w.backAmiFails then Restoration(s1, true, false)
      else
        var s2 := AfterReload(s1, w.backReload);
        if !w.backReload.reported then Restoration(s2, true, false)
        else if previous.None? then Restoration(s2, true, true)
        else
          var baseline := Materialized(s2.store, BaselineRevision(s2.store));
          Restoration(s2, true,
                      && s2.store.current in s2.store.revisions && baseline.Ok?
                      && Healthy(s2.running, w.backHealth, baseline.value, ExpectedCanary(previous)))
  }

  datatype Course = Course(sys: System, report: Report, committed: bool, restored: bool)

  /** What becomes of a deployment whose record was created. */
  function Deployed(s: System, t: Topology, revision: nat, id: string, w: World): Course
  {
    var a := Activate(s, id, w);
    if !a.activated then Course(a.sys, Report(false, a.staged, false, false, false, false), false, false)
    else
      var v := Verify(a.sys, t, revision, id, w);
      if v.deployed then Course(v.sys, Report(true, true, true, true, true, false), true, false)
      else
        var b := Restore(v.sys, s.current, w);
        Course(b.sys, Report(false, true, true, v.reloaded, false, b.rolledBack), v.committed, b.restored)
  }

  // ---------------------------------------------------------------- the program

  method Perform(db: PbxDatabase, op: Op)
    modifies db
    ensures db.State() == Apply(old(db.State()), op)
  {
    match op
    case SaveOp(t, e, allow) => var _ := db.SaveTopology(t, e, allow);
    case SecretOp(id, p, e) => var _ := db.UpdateSipSecret(id, p, e);
    case RollbackOp(target, e) => var _ := db.RollbackTopology(target, e);
    case ActivateOp(r) => var _ := db.MarkDeploymentActive(r);
    case DeploymentOp(id, r) => var _ := db.CreateDeployment(id, r);
    case RotateOp(from, to, fails) => var _ := db.RotateSecrets(from, to, fails);
  }

  /** Other clients' operations, run at an await point. */
  method PerformAll(db: PbxDatabase, ops: seq<Op>)
    modifies db
    ensures db.State() == Run(old(db.State()), ops)
  {
    var k := 0;
    while k < |ops|
      invariant 0 <= k <= |ops|
      invariant db.State() == Run(old(db.State()), ops[..k])
    {
      assert ops[..k + 1][..k] == ops[..k];
      Perform(db, ops[k]);
      k := k + 1;
    }
    assert ops[..k] == ops;
  }

  class Deployer {
    var current: Option<string>
    var lastGood: Option<string>
    var running: Option<string>
    var versions: set<string>
    const db: PbxDatabase

    constructor (database: PbxDatabase)
      ensures db == database && fresh(this)
    {
      db := database;
      current, lastGood, running, versions := None, None, None, {};
    }

    ghost function Sys(): System
      reads this, db
    {
      System(db.State(), current, lastGood, running, versions)
    }

    method StageGeneratedConfigs(id: string, fails: bool) returns (ok: bool)
      modifies this`versions
      ensures ok <==> !fails && id !in old(versions)
      ensures versions == if ok then old(versions) + {id} else old(versions)
    {
      ok := !fails && id !in versions;
      if ok { versions := versions + {id}; }
    }

    /** switchCurrent: a symlink renamed over the old one, or an unlink. */
    method SwitchCurrent(target: Option<string>, fails: bool) returns (ok: bool)
      modifies this`current
      ensures ok <==> !fails
      ensures current == if ok then target else old(current)
    {
      ok := !fails;
      if ok { current := target; }
    }

    method DeployReload(r: Reload) returns (ok: bool)
      modifies this`running
      ensures ok <==> r.reported
      ensures running == if r.loads then current else old(running)
    {
      if r.loads { running := current; }
      ok := r.reported;
    }

    /** The catch block's attempt to put the previous configuration back. */
    method RollBack(previous: Option<string>, w: World) returns (rolledBack: bool)
      modifies this, db
      ensures Sys() == Restore(old(Sys()), previous, w).sys
      ensures rolledBack == Restore(old(Sys()), previous, w).rolledBack
    {
      var switched := SwitchCurrent(previous, w.backSwitchFails);
      if !switched { return false; }
      PerformAll(db, w.after);
      if w.backAmiFails { return false; }
      var reloaded := DeployReload(w.backReload);
      if !reloaded { return false; }
      if previous.Some? {
        if db.currentRevision !in db.revisions { return false; }
        var baseline := db.MaterializedTopology(db.lastGoodRevision);
        if baseline.Err? { return false; }
        if !Healthy(running, w.backHealth, baseline.value, ExpectedCanary(previous)) { return false; }
      }
      rolledBack := true;
    }

    /** Staging, preflight and the switch of the link. */
    method StageAndActivate(id: string, w: World)
      returns (staged: bool, activated: bool, previous: Option<string>)
      modifies this, db
      ensures Activation(Sys(), staged, activated) == Activate(old(Sys()), id, w)
      ensures activated ==> previous == old(current)
    {
      activated, previous := false, None;
      staged := StageGeneratedConfigs(id, w.stageFails);
      if staged {
        PerformAll(db, w.before);
        if !w.preflightFails && !w.amiFails && !w.readLinkFails {
          previous := current;
          activated := SwitchCurrent(Some(id), w.switchFails);
        }
      }
    }

    /** Reload, health check, last-good link, pointer update and the record of success. */
    method VerifyAndCommit(t: Topology, revision: nat, id: string, w: World)
      returns (reloaded: bool, ghost committed: bool, deployed: bool)
      modifies this, db
      ensures Verification(Sys(), reloaded, committed, deployed) == Verify(old(Sys()), t, revision, id, w)
    {
      committed, deployed := false, false;
      PerformAll(db, w.during);
      reloaded := DeployReload(w.reload);
      if !reloaded || !Healthy(running, w.health, t, Some(id)) || w.lastGoodFails { return; }
      lastGood := Some(id);
      if w.commitFails { return; }
      var marked := db.MarkDeploymentActive(revision);
      if marked.Ok? {
        committed, deployed := true, !(w.finishFails || w.auditFails);
      }
    }

    /** deployTopology; None stands for an exception thrown to the caller. */
    method DeployTopology(t: Topology, revision: nat, id: string, w: World) returns (r: Option<Report>)
      modifies this, db
      ensures var created := CreateDeployment(old(Sys()).store, id, revision);
              if w.createFails || created.1.Err? then Sys() == old(Sys()) && r == None
              else
                var course := Deployed(old(Sys()).(store := created.0), t, revision, id, w);
                && Sys() == course.sys
                && r == if !course.report.deployed && w.lateRecordFails then None else Some(course.report)
    {
      if w.createFails { return None; }
      var created := db.CreateDeployment(id, revision);
      if created.Err? { return None; }
      var staged, activated, previous := StageAndActivate(id, w);
      var reloaded, deployed, rolledBack := false, false, false;
      if activated {
        ghost var committed;
        reloaded, committed, deployed := VerifyAndCommit(t, revision, id, w);
        if !deployed {
          rolledBack := RollBack(previous, w);
        }
      }
      if deployed {
        return Some(Report(true, true, true, true, true, false));
      }
      r := if w.lateRecordFails then None
           else Some(Report(false, staged, activated, reloaded, false, rolledBack));
    }
  }
}
