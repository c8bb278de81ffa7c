/** When a failed deployment is rolled back, and what the protocol does not protect (backend/src/asterisk/deploy.ts). */
module RollbackTheorems {
  import opened Text
  import opened Topologies
  import opened StoreSpec
  import opened StoreTheorems
  import opened Deploy
  import opened DeployTheorems

  // ---------------------------------------------------------------- the last-good link and pointer

  /** The last-good link names a deployment of the last-good revision. */
  ghost predicate LastGoodAgrees(s: System) { NamesRevision(s.store, s.lastGood, s.store.lastGood) }

  /** The last-good link moves when its step is reached, and nothing moves it back. */
  lemma LastGoodAfter(s: System, t: Topology, revision: nat, id: string, w: World)
    ensures Deployed(s, t, revision, id, w).sys.lastGood
         == if SwitchReached(s, id, w) && LastGoodReached(s, t, id, w) then Some(id) else s.lastGood
  {
  }

  /**
   * Link and pointer are not updated together: they still agree after a deployment if and only if the
   * revision was last good already, or the step of the link was not reached, or the pointers were moved too.
   */
  lemma LastGoodAgreementSurvivesIff(s: System, t: Topology, revision: nat, id: string, w: World)
    requires Inv(s.store) && OnlyEditors(w) && LastGoodAgrees(s)
    requires id != BOOTSTRAP && id in s.store.deployments && s.store.deployments[id] == revision
    ensures LastGoodAgrees(Deployed(s, t, revision, id, w).sys) <==>
              || s.store.lastGood == Some(revision)
              || !(SwitchReached(s, id, w) && LastGoodReached(s, t, id, w))
              || CommitReached(s, t, revision, id, w)
  {
    var course := Deployed(s, t, revision, id, w);
    SettledStore(s, t, revision, id, w);
    PointersAfter(s, t, revision, id, w);
    CourseFromFaults(s, t, revision, id, w);
    LastGoodAfter(s, t, revision, id, w);
    if SwitchReached(s, id, w) && LastGoodReached(s, t, id, w) {
      KeptName(s.store, course.sys.store, id);
    } else {
      KeptAgreement(s.store, course.sys.store, s.lastGood);
    }
  }

  /** Whatever was linked before: after a reported deployment both links name the revision of their pointer. */
  lemma DeployedMeansAgreement(s: System, t: Topology, revision: nat, id: string, w: World)
    requires Inv(s.store) && OnlyEditors(w) && Deployed(s, t, revision, id, w).report.deployed
    requires id != BOOTSTRAP && id in s.store.deployments && s.store.deployments[id] == revision
    ensures var after := Deployed(s, t, revision, id, w).sys;
            LinkNamesActive(after) && LastGoodAgrees(after) && after.running == Some(id)
  {
    DeployedMeansActive(s, t, revision, id, w);
    SettledStore(s, t, revision, id, w);
    KeptName(s.store, Deployed(s, t, revision, id, w).sys.store, id);
  }

  // ---------------------------------------------------------------- when a rollback is reported

  lemma {:induction false} MaterializedCount(nodes: seq<Node>, secrets: map<string, Sealed>, c: Cipher)
    requires MaterializedNodes(nodes, secrets, c).Ok?
    ensures ExtensionCount(MaterializedNodes(nodes, secrets, c).value) == ExtensionCount(nodes)
  {
    if nodes != [] {
      MaterializedCount(nodes[1..], secrets, c);
      var all := MaterializedNodes(nodes, secrets, c).value;
      assert all[1..] == MaterializedNodes(nodes[1..], secrets, c).value;
    }
  }

  /** The baseline is retained, no configured extension of it has lost its row, and Asterisk is healthy for it. */
  ghost predicate BaselineHolds(s: Store, h: Health)
  {
    && BaselineRevision(s) in s.revisions
    && !MissingRow(s.revisions[BaselineRevision(s)].nodes, s.secrets)
    && AsteriskHealthy(h, s.revisions[BaselineRevision(s)])
  }

  lemma BaselineMaterializes(s: Store, h: Health)
    requires Inv(s)
    ensures var m := Materialized(s, BaselineRevision(s));
            m.Ok? && AsteriskHealthy(h, m.value) <==> BaselineHolds(s, h)
  {
    var r := BaselineRevision(s);
    if r in s.revisions {
      MaterializesIff(s, r);
      if Materialized(s, r).Ok? {
        MaterializedCount(s.revisions[r].nodes, s.secrets, s.cipher);
      }
    }
  }

  /** What Asterisk runs once the rollback has asked it to reload. */
  function RunningAfter(s: System, id: string, w: World): Option<string>
  {
    if w.backReload.loads then s.current else if w.reload.loads then Some(id) else s.running
  }

  lemma RestoreIff(s: System, previous: Option<string>, w: World)
    requires Inv(Run(s.store, w.after))
    ensures Restore(s, previous, w).rolledBack <==>
              && !w.backSwitchFails && !w.backAmiFails && w.backReload.reported
              && (previous.Some? ==>
                    && BaselineHolds(Run(s.store, w.after), w.backHealth)
                    && (previous == Some(BOOTSTRAP)
                        || (if w.backReload.loads then previous else s.running) == previous))
  {
    BaselineMaterializes(Run(s.store, w.after), w.backHealth);
  }

  lemma RunningBeforeRestore(s: System, t: Topology, revision: nat, id: string, w: World)
    requires SwitchReached(s, id, w)
    ensures Verify(Activate(s, id, w).sys, t, revision, id, w).sys.running
         == if w.reload.loads then Some(id) else s.running
  {
  }

  /** The store at the end is the one the rollback leaves. */
  lemma RestoredStore(s: System, t: Topology, revision: nat, id: string, w: World)
    requires Inv(s.store) && SwitchReached(s, id, w) && !w.backSwitchFails
    requires !Deployed(s, t, revision, id, w).report.deployed
    ensures var v := Verify(Activate(s, id, w).sys, t, revision, id, w);
      && Run(v.sys.store, w.after) == Deployed(s, t, revision, id, w).sys.store
      && Inv(Run(v.sys.store, w.after))
  {
    JournalIsRun(s, t, revision, id, w);
    RunKeeps(s.store, Journal(s, t, revision, id, w));
    RestoreStore(Verify(Activate(s, id, w).sys, t, revision, id, w).sys, s.current, w);
  }

  /**
   * A rollback is reported if and only if the link was switched without success, the way back meets no
   * fault, and, unless nothing was linked before, the last-good revision can still be materialized and
   * Asterisk runs the old deployment in good health.
   */
  lemma RolledBackIff(s: System, t: Topology, revision: nat, id: string, w: World)
    requires Inv(s.store)
    ensures var course := Deployed(s, t, revision, id, w);
      course.report.rolledBack <==>
        && SwitchReached(s, id, w) && !(CommitReached(s, t, revision, id, w) && Recorded(w))
        && !w.backSwitchFails && !w.backAmiFails && w.backReload.reported
        && (s.current.Some? ==>
              && BaselineHolds(Run(s.store, Journal(s, t, revision, id, w)), w.backHealth)
              && (s.current == Some(BOOTSTRAP) || RunningAfter(s, id, w) == s.current))
  {
    DeployedIff(s, t, revision, id, w);
    CourseFromFaults(s, t, revision, id, w);
    JournalIsRun(s, t, revision, id, w);
    if SwitchReached(s, id, w) && !Deployed(s, t, revision, id, w).report.deployed && !w.backSwitchFails {
      RestoredStore(s, t, revision, id, w);
      RunningBeforeRestore(s, t, revision, id, w);
      RestoreIff(Verify(Activate(s, id, w).sys, t, revision, id, w).sys, s.current, w);
    }
  }

  // ---------------------------------------------------------------- what the protocol does not protect

  /** Everything works, except that recording the success fails after the commit. */
  function LateFault(t: Topology): World
  {
    var good := Reload(true, true);
    World(false, false, [], false, false, false, false, [], good, Health(true, true, ExtensionCount(t.nodes)),
          false, false, true, false, false, [], false, good, Health(true, true, 0), false)
  }

  /** The first deployment then reports a rollback, while the active revision is the deployed one. */
  lemma LateFaultBreaksAgreement(s: System, t: Topology, revision: nat, id: string)
    requires s.current == None && s.store.active == None && id !in s.versions
    requires CreateDeployment(s.store, id, revision).1.Ok?
    ensures LinkNamesActive(s)
    ensures var course :=
            Deployed(s.(store := CreateDeployment(s.store, id, revision).0), t, revision, id, LateFault(t));
            course.report.rolledBack && !LinkNamesActive(course.sys)
  {
    assert Run(s.store, []) == s.store;
  }

  /** Everything works, except that the update of the pointers faults. */
  function FailedCommit(t: Topology): World { AllWell(t).(commitFails := true) }

  /**
   * Deploying a retained revision that is not the last good one then leaves the last-good link on the new
   * deployment and the pointer on the old revision, also where a rollback is reported.
   */
  lemma FailedCommitBreaksLastGood(s: System, t: Topology, revision: nat, id: string)
    requires Inv(s.store) && LastGoodAgrees(s) && s.store.lastGood != Some(revision)
    requires id != BOOTSTRAP && id !in s.versions && CreateDeployment(s.store, id, revision).1.Ok?
    ensures var created := s.(store := CreateDeployment(s.store, id, revision).0);
            var course := Deployed(created, t, revision, id, FailedCommit(t));
            var after := course.sys;
            && !LastGoodAgrees(after) && after.lastGood == Some(id)
            && after.store.lastGood == s.store.lastGood && revision in after.store.revisions
            && (s.current == None ==> course.report.rolledBack)
  {
    var created := s.(store := CreateDeployment(s.store, id, revision).0);
    StepKeeps(s.store, DeploymentOp(id, revision));
    LastGoodAgreementSurvivesIff(created, t, revision, id, FailedCommit(t));
    LastGoodAfter(created, t, revision, id, FailedCommit(t));
    PointersAfter(created, t, revision, id, FailedCommit(t));
  }

  /** A rollback is never reported when a configured extension of the last-good revision lost its secret. */
  lemma UnreadableBaselineBlocksRollback(s: System, previous: Option<string>, w: World)
    requires Inv(s.store) && previous.Some? && s.store.lastGood.Some?
    requires var end := Run(s.store, w.after);
               && end.lastGood == s.store.lastGood && s.store.lastGood.value in end.revisions
               && MissingRow(end.revisions[s.store.lastGood.value].nodes, end.secrets)
    ensures !Restore(s, previous, w).rolledBack
  {
    var end := Run(s.store, w.after);
    RunKeeps(s.store, w.after);
    MaterializesIff(end, s.store.lastGood.value);
  }

  // ---------------------------------------------------------------- a deployment that is not rolled back

  /** Nothing fails. */
  function AllWell(t: Topology): World
  {
    LateFault(t).(finishFails := false)
  }

  /** Nothing fails, but Asterisk does not answer while the new files are checked. */
  function Unhealthy(t: Topology): World
  {
    AllWell(t).(health := Health(false, true, ExtensionCount(t.nodes)))
  }

  /** A failed deployment is not rolled back where the last-good revision cannot be materialized. */
  lemma UnhealthyStays(s: System, t: Topology, revision: nat, id: string)
    requires Inv(s.store) && s.current.Some? && id !in s.versions
    requires s.store.lastGood.Some? && s.store.lastGood.value in s.store.revisions
    requires MissingRow(s.store.revisions[s.store.lastGood.value].nodes, s.store.secrets)
    ensures var report := Deployed(s, t, revision, id, Unhealthy(t)).report;
            report.activated && !report.deployed && !report.rolledBack
  {
    var w := Unhealthy(t);
    RolledBackIff(s, t, revision, id, w);
    DeployedIff(s, t, revision, id, w);
    CourseFromFaults(s, t, revision, id, w);
    assert Journal(s, t, revision, id, w) == [];
  }

  const EMPTY := Topology([], [], [])

  /** A new installation whose only phone is deployed, and then left out of the draft. */
  function PhoneLeftOut(phone: Node, c: Cipher, limit: nat, first: string): System
  {
    var t := Topology([phone], [], []);
    AfterSteps(Installed(t, c, limit, false), [Deployment(t, 1, first, AllWell(t)), Edit(SaveOp(EMPTY, 1, false))])
  }

  lemma TwoSteps(s: System, a: Step, b: Step)
    ensures AfterSteps(s, [a, b]) == AfterStep(AfterStep(s, a), b)
  {
    assert [a, b][..1] == [a] && [a][..0] == [];
    assert AfterSteps(s, [a]) == AfterStep(AfterSteps(s, []), a);
  }

  /** The store once the first revision has been deployed. */
  function FirstActive(s: Store, first: string): Store
  {
    MarkActive(CreateDeployment(s, first, 1).0, 1).0
  }

  lemma FirstDeployment(s: System, t: Topology, first: string)
    requires Inv(s.store) && 1 in s.store.revisions && first !in s.store.deployments && first !in s.versions
    ensures var after := AfterStep(s, Deployment(t, 1, first, AllWell(t)));
      && after.store == FirstActive(s.store, first)
      && after.current == Some(first) && after.versions == s.versions + {first}
  {
    assert Run(CreateDeployment(s.store, first, 1).0, []) == CreateDeployment(s.store, first, 1).0;
  }

  lemma FirstActiveHolds(phone: Node, c: Cipher, limit: nat, first: string)
    requires phone.Extension? && phone.sipPassword.Some? && phone.sipPassword.value != ""
    ensures var s := FirstActive(Initial(Topology([phone], [], []), c, limit), first);
      && Inv(s) && s.current == 1 && s.lastGood == Some(1) && s.revisions[1].nodes == [Redacted(phone, true)]
      && s.deployments.Keys == {first}
  {
    var s := Initial(Topology([phone], [], []), c, limit);
    InitialInv(Topology([phone], [], []), c, limit);
    PhoneMarked(phone, c);
    StepKeeps(s, DeploymentOp(first, 1));
    StepKeeps(CreateDeployment(s, first, 1).0, ActivateOp(1));
  }

  /** What leaving the phone out does to such a store. */
  lemma LeftOut(s: Store, phone: Node)
    requires Inv(s) && s.current == 1 && s.lastGood == Some(1) && phone.Extension?
    requires s.revisions[1].nodes == [Redacted(phone, true)]
    ensures var after := Apply(s, SaveOp(EMPTY, 1, false));
      && Inv(after) && after.lastGood == Some(1) && 1 in after.revisions && after.current in after.revisions
      && MissingRow(after.revisions[1].nodes, after.secrets) && after.deployments.Keys <= s.deployments.Keys
  {
    var after := Apply(s, SaveOp(EMPTY, 1, false));
    StepKeeps(s, SaveOp(EMPTY, 1, false));
    EmptyDraftLosesSecret(s, phone);
    MaterializesIff(after, 1);
    StepKeepsRecords(s, SaveOp(EMPTY, 1, false));
  }

  /** The next deployment, of the draft without the phone, is switched to, fails, and is not rolled back. */
  lemma FailedDeploymentStays(phone: Node, password: string, c: Cipher, limit: nat, first: string, second: string)
    requires phone.Extension? && phone.sipPassword == Some(password) && password != "" && first != second
    ensures var s := PhoneLeftOut(phone, c, limit, first);
            var (created, r) := CreateDeployment(s.store, second, s.store.current);
            var report := Deployed(s.(store := created), EMPTY, s.store.current, second, Unhealthy(EMPTY)).report;
            r.Ok? && report.activated && !report.deployed && !report.rolledBack
  {
    var t, s0 := Topology([phone], [], []), Installed(Topology([phone], [], []), c, limit, false);
    InitialInv(t, c, limit);
    TwoSteps(s0, Deployment(t, 1, first, AllWell(t)), Edit(SaveOp(EMPTY, 1, false)));
    FirstDeployment(s0, t, first);
    FirstActiveHolds(phone, c, limit, first);
    LeftOut(FirstActive(s0.store, first), phone);
    var s := PhoneLeftOut(phone, c, limit, first);
    StaysUnhealthy(s, second);
  }

  /** So it is from any system in this state. */
  lemma StaysUnhealthy(s: System, second: string)
    requires Inv(s.store) && s.current.Some? && s.store.lastGood == Some(1) && 1 in s.store.revisions
    requires MissingRow(s.store.revisions[1].nodes, s.store.secrets)
    requires second !in s.store.deployments && second !in s.versions
    ensures var (created, r) := CreateDeployment(s.store, second, s.store.current);
            var report := Deployed(s.(store := created), EMPTY, s.store.current, second, Unhealthy(EMPTY)).report;
            r.Ok? && report.activated && !report.deployed && !report.rolledBack
  {
    var created := CreateDeployment(s.store, second, s.store.current).0;
    StepKeeps(s.store, DeploymentOp(second, s.store.current));
    UnhealthyStays(s.(store := created), EMPTY, s.store.current, second);
  }
}
