/** What a deployment promises about the link, the running configuration and the revision pointers. */
module DeployTheorems {
  import opened Text
  import opened Topologies
  import opened StoreSpec
  import opened StoreTheorems
  import opened Deploy

  /** Only deployments move the active pointers and create deployment records. */
  predicate EditorOp(op: Op) { !op.ActivateOp? && !op.DeploymentOp? }

  ghost predicate OnlyEditors(w: World)
  {
    forall op | op in w.before + w.during + w.after :: EditorOp(op)
  }

  /** The active pointers and the records of active deployments. */
  ghost predicate SamePointers(s: Store, s': Store)
  {
    && s'.active == s.active && s'.lastGood == s.lastGood
    && (forall d | d in s'.deployments :: d in s.deployments && s'.deployments[d] == s.deployments[d])
    && (forall d | d in s.deployments && s.active == Some(s.deployments[d]) :: d in s'.deployments)
  }

  lemma EditorKeepsPointers(s: Store, op: Op)
    requires EditorOp(op)
    ensures SamePointers(s, Apply(s, op))
  {
    if WrittenRevision(s, op).Some? {
      WriteShape(s, op);
      var m := Inserted(Basis(s, op).0, Basis(s, op).1);
      assert s.active.Some? ==> s.active.value in Pointers(m);
    } else {
      NoWriteShape(s, op);
    }
  }

  lemma {:induction false} EditorsKeepPointers(s: Store, ops: seq<Op>)
    requires forall op | op in ops :: EditorOp(op)
    ensures SamePointers(s, Run(s, ops))
  {
    if ops != [] {
      EditorsKeepPointers(s, ops[..|ops| - 1]);
      EditorKeepsPointers(Run(s, ops[..|ops| - 1]), ops[|ops| - 1]);
    }
  }

  // ---------------------------------------------------------------- one deployment

  /** A reported deployment is the one linked, running, recorded as last good, and active. */
  lemma DeployedMeansActive(s: System, t: Topology, revision: nat, id: string, w: World)
    requires Deployed(s, t, revision, id, w).report.deployed
    ensures var after := Deployed(s, t, revision, id, w).sys;
      && after.current == Some(id) && after.running == Some(id) && after.lastGood == Some(id) && id in after.versions
      && after.store.active == Some(revision) && after.store.lastGood == Some(revision)
      && revision in after.store.revisions
  {
  }

  predicate AsteriskHealthy(h: Health, t: Topology)
  {
    h.versionAnswers && h.internalContext && h.endpoints >= ExtensionCount(t.nodes)
  }

  /** Nothing fails up to and including the switch of the link. */
  predicate SwitchReached(s: System, id: string, w: World)
  {
    && !w.stageFails && id !in s.versions && !w.preflightFails && !w.amiFails && !w.readLinkFails && !w.switchFails
  }

  /** The new files are read and found healthy, and the last-good link is set. */
  predicate LastGoodReached(s: System, t: Topology, id: string, w: World)
  {
    && w.reload.reported && (w.reload.loads || s.running == Some(id)) && AsteriskHealthy(w.health, t)
    && !w.lastGoodFails
  }

  /** Then the pointers are moved, if their update does not fault and the revision still exists. */
  predicate CommitReached(s: System, t: Topology, revision: nat, id: string, w: World)
  {
    && LastGoodReached(s, t, id, w) && !w.commitFails
    && revision in Run(s.store, w.before + w.during).revisions
  }

  /** The success is recorded after the commit. */
  predicate Recorded(w: World) { !w.finishFails && !w.auditFails }

  /** How far a deployment gets, told from what it meets. */
  lemma CourseFromFaults(s: System, t: Topology, revision: nat, id: string, w: World)
    ensures var course := Deployed(s, t, revision, id, w);
      && (course.report.activated <==> SwitchReached(s, id, w))
      && (course.committed <==> SwitchReached(s, id, w) && CommitReached(s, t, revision, id, w))
      && (course.restored <==>
            && SwitchReached(s, id, w) && !(CommitReached(s, t, revision, id, w) && Recorded(w))
            && !w.backSwitchFails)
  {
    RunConcat(s.store, w.before, w.during);
  }

  /** What else the report says: the files were written, the new ones were read, and they were found healthy. */
  lemma ReportTells(s: System, t: Topology, revision: nat, id: string, w: World)
    ensures var report := Deployed(s, t, revision, id, w).report;
      && (report.configsWritten <==> !w.stageFails && id !in s.versions)
      && (report.reloaded <==> SwitchReached(s, id, w) && w.reload.reported)
      && (report.runtimeHealthy <==> report.deployed)
      && (report.rolledBack ==> report.activated && !report.deployed)
  {
  }

  /** A deployment succeeds exactly if no step fails, Asterisk is healthy and the revision still exists. */
  lemma DeployedIff(s: System, t: Topology, revision: nat, id: string, w: World)
    ensures Deployed(s, t, revision, id, w).report.deployed <==>
              SwitchReached(s, id, w) && CommitReached(s, t, revision, id, w) && Recorded(w)
  {
    RunConcat(s.store, w.before, w.during);
  }

  /** How many of these nodes are phones. */
  ghost function Phones(nodes: seq<Node>): set<nat> { set i: nat | i < |nodes| && nodes[i].Extension? }

  lemma {:induction false} CountSnoc(nodes: seq<Node>, n: Node)
    ensures ExtensionCount(nodes + [n]) == ExtensionCount(nodes) + if n.Extension? then 1 else 0
  {
    if nodes == [] {
      assert nodes + [n] == [n] && [n][1..] == [];
    } else {
      assert (nodes + [n])[1..] == nodes[1..] + [n];
      CountSnoc(nodes[1..], n);
    }
  }

  lemma PhonesSnoc(nodes: seq<Node>, n: Node)
    ensures |Phones(nodes + [n])| == |Phones(nodes)| + if n.Extension? then 1 else 0
  {
    var all, k := nodes + [n], |nodes|;
    assert k !in Phones(nodes) && forall i: nat | i < k :: all[i] == nodes[i];
    if n.Extension? {
      assert Phones(all) == Phones(nodes) + {k};
    } else {
      assert Phones(all) == Phones(nodes);
    }
  }

  lemma {:induction false} ExtensionCountIs(nodes: seq<Node>)
    ensures ExtensionCount(nodes) == |Phones(nodes)|
  {
    if nodes == [] {
      assert Phones(nodes) == {};
    } else {
      var before, last := nodes[..|nodes| - 1], nodes[|nodes| - 1];
      assert nodes == before + [last];
      CountSnoc(before, last);
      PhonesSnoc(before, last);
      ExtensionCountIs(before);
    }
  }

  /** With fewer endpoints than phones nothing is reported deployed. */
  lemma TooFewEndpoints(s: System, t: Topology, revision: nat, id: string, w: World)
    requires w.health.endpoints < |Phones(t.nodes)|
    ensures !Deployed(s, t, revision, id, w).report.deployed
  {
    ExtensionCountIs(t.nodes);
    DeployedIff(s, t, revision, id, w);
  }

  /** Until the link is switched nothing a caller sees changes. */
  lemma NotActivatedMeansUntouched(s: System, t: Topology, revision: nat, id: string, w: World)
    requires OnlyEditors(w) && !Deployed(s, t, revision, id, w).report.activated
    ensures var after := Deployed(s, t, revision, id, w).sys;
      && after.current == s.current && after.running == s.running && after.lastGood == s.lastGood
      && after.store.active == s.store.active && after.store.lastGood == s.store.lastGood
  {
    EditorsKeepPointers(s.store, w.before);
  }

  /** A reported rollback has put the old link back, and Asterisk runs the old deployment if there was one. */
  lemma RolledBackMeansRestored(s: System, t: Topology, revision: nat, id: string, w: World)
    requires Deployed(s, t, revision, id, w).report.rolledBack
    ensures var course := Deployed(s, t, revision, id, w);
      && course.restored && course.sys.current == s.current
      && (s.current.Some? && s.current.value != BOOTSTRAP ==> course.sys.running == s.current)
      && (s.current.Some? ==>
            var baseline := Materialized(course.sys.store, BaselineRevision(course.sys.store));
            baseline.Ok? && AsteriskHealthy(w.backHealth, baseline.value))
  {
  }

  /** The pointers after a deployment: moved exactly if the commit was reached. */
  lemma PointersAfter(s: System, t: Topology, revision: nat, id: string, w: World)
    requires OnlyEditors(w)
    ensures var course := Deployed(s, t, revision, id, w);
      if course.committed then course.sys.store.active == Some(revision) && course.sys.store.lastGood == Some(revision)
      else course.sys.store.active == s.store.active && course.sys.store.lastGood == s.store.lastGood
  {
    EditorsKeepPointers(s.store, w.before);
    var a := Activate(s, id, w);
    if a.activated {
      EditorsKeepPointers(a.sys.store, w.during);
      var v := Verify(a.sys, t, revision, id, w);
      EditorsKeepPointers(v.sys.store, w.after);
    }
  }

  /** Where the link points afterwards. */
  lemma LinkAfter(s: System, t: Topology, revision: nat, id: string, w: World)
    ensures var course := Deployed(s, t, revision, id, w);
      course.sys.current == if course.report.activated && !course.restored then Some(id) else s.current
  {
  }

  // ---------------------------------------------------------------- link and pointer agree

  /** The revision that a link target was deployed from; before any deployment there is none. */
  ghost predicate NamesRevision(s: Store, target: Option<string>, revision: Option<nat>)
  {
    if target.None? || target.value == BOOTSTRAP then revision == None
    else target.value in s.deployments && revision == Some(s.deployments[target.value])
  }

  /** The `current` link names a deployment of the active revision. */
  ghost predicate LinkNamesActive(s: System) { NamesRevision(s.store, s.current, s.store.active) }

  // ---------------------------------------------------------------- the store's side of a deployment

  /** Everything that happens to the store between the record's creation and the end. */
  function Journal(s: System, t: Topology, revision: nat, id: string, w: World): seq<Op>
  {
    if w.stageFails || id in s.versions then []
    else
      var a := Activate(s, id, w);
      if !a.activated then w.before
      else
        var v := Verify(a.sys, t, revision, id, w);
        w.before + (w.during + if v.committed then [ActivateOp(revision)] else [])
        + (if v.deployed || w.backSwitchFails then [] else w.after)
  }

  lemma {:induction false} RunConcat(s: Store, a: seq<Op>, b: seq<Op>)
    ensures Run(s, a + b) == Run(Run(s, a), b)
  {
    if b == [] {
      assert a + b == a;
    } else {
      var k := |b| - 1;
      assert (a + b)[..|a + b| - 1] == a + b[..k];
      RunConcat(s, a, b[..k]);
    }
  }

  lemma RunMark(s: Store, ops: seq<Op>, revision: nat)
    ensures Run(s, ops + [ActivateOp(revision)]) == MarkActive(Run(s, ops), revision).0
  {
    assert (ops + [ActivateOp(revision)])[..|ops|] == ops;
  }

  lemma VerifyWrites(s: System, t: Topology, revision: nat, id: string, w: World)
    ensures var v, store := Verify(s, t, revision, id, w), Run(s.store, w.during);
            v.sys.store == if v.committed then MarkActive(store, revision).0 else store
  {
  }

  lemma VerifyStore(s: System, t: Topology, revision: nat, id: string, w: World)
    ensures var v := Verify(s, t, revision, id, w);
            v.sys.store == Run(s.store, w.during + if v.committed then [ActivateOp(revision)] else [])
  {
    VerifyWrites(s, t, revision, id, w);
    RunMark(s.store, w.during, revision);
    assert w.during + [] == w.during;
  }

  lemma RunPieces(s: Store, before: seq<Op>, middle: seq<Op>, after: seq<Op>)
    ensures Run(Run(s, before), middle) == Run(s, before + middle)
    ensures Run(Run(s, before + middle), after) == Run(s, before + middle + after)
  {
    RunConcat(s, before, middle);
    RunConcat(s, before + middle, after);
  }

  lemma ActivatedJournalIsRun(s: System, t: Topology, revision: nat, id: string, w: World)
    requires Activate(s, id, w).activated
    ensures Deployed(s, t, revision, id, w).sys.store == Run(s.store, Journal(s, t, revision, id, w))
  {
    var a := Activate(s, id, w);
    var v := Verify(a.sys, t, revision, id, w);
    var mark := if v.committed then [ActivateOp(revision)] else [];
    VerifyStore(a.sys, t, revision, id, w);
    RunPieces(s.store, w.before, w.during + mark, w.after);
    RunPieces(s.store, w.before, w.during + mark, []);
    RestoreStore(v.sys, s.current, w);
  }

  lemma RestoreStore(s: System, previous: Option<string>, w: World)
    ensures Restore(s, previous, w).sys.store == if w.backSwitchFails then s.store else Run(s.store, w.after)
  {
  }

  lemma JournalIsRun(s: System, t: Topology, revision: nat, id: string, w: World)
    ensures Deployed(s, t, revision, id, w).sys.store == Run(s.store, Journal(s, t, revision, id, w))
  {
    if Activate(s, id, w).activated {
      ActivatedJournalIsRun(s, t, revision, id, w);
    }
  }

  lemma JournalOps(s: System, t: Topology, revision: nat, id: string, w: World)
    requires OnlyEditors(w)
    ensures forall op | op in Journal(s, t, revision, id, w) :: !op.DeploymentOp?
  {
    forall op | op in Journal(s, t, revision, id, w)
        ensures op in w.before + w.during + w.after || op == ActivateOp(revision) {
    }
  }

  lemma {:induction false} RunKeeps(s: Store, ops: seq<Op>)
    requires Inv(s)
    ensures Inv(Run(s, ops))
  {
    if ops != [] {
      RunKeeps(s, ops[..|ops| - 1]);
      StepKeeps(Run(s, ops[..|ops| - 1]), ops[|ops| - 1]);
    }
  }

  /** Deployment records change only by disappearing together with their revision. */
  ghost predicate RecordsKept(s: Store, s': Store)
  {
    && (forall d | d in s'.deployments :: d in s.deployments && s'.deployments[d] == s.deployments[d])
    && (forall d | d in s.deployments && s.deployments[d] in s'.revisions :: d in s'.deployments)
  }

  lemma StepKeepsRecords(s: Store, op: Op)
    requires !op.DeploymentOp?
    ensures RecordsKept(s, Apply(s, op))
  {
    if WrittenRevision(s, op).Some? {
      WriteShape(s, op);
    } else {
      NoWriteShape(s, op);
    }
  }

  lemma {:induction false} RunKeepsRecords(s: Store, ops: seq<Op>)
    requires Inv(s) && forall op | op in ops :: !op.DeploymentOp?
    ensures RecordsKept(s, Run(s, ops))
  {
    if ops != [] {
      var k := |ops| - 1;
      var before := Run(s, ops[..k]);
      RunKeepsRecords(s, ops[..k]);
      StepKeepsRecords(before, ops[k]);
      RunKeeps(s, ops[..k]);
      NumbersGrow(s, ops[..k]);
      forall d | d in s.deployments && s.deployments[d] in Run(s, ops).revisions ensures d in Run(s, ops).deployments {
        assert [ops[k]][..0] == [] && Run(before, [ops[k]]) == Apply(before, ops[k]);
        RevisionsAreImmutable(before, [ops[k]], s.deployments[d]);
      }
    }
  }

  // ---------------------------------------------------------------- when the agreement survives

  /** The link ends on the new deployment. */
  predicate Moved(course: Course) { course.report.activated && !course.restored }

  lemma SettledStore(s: System, t: Topology, revision: nat, id: string, w: World)
    requires Inv(s.store) && OnlyEditors(w)
    ensures Inv(Deployed(s, t, revision, id, w).sys.store)
    ensures RecordsKept(s.store, Deployed(s, t, revision, id, w).sys.store)
  {
    JournalIsRun(s, t, revision, id, w);
    RunKeeps(s.store, Journal(s, t, revision, id, w));
    JournalOps(s, t, revision, id, w);
    RunKeepsRecords(s.store, Journal(s, t, revision, id, w));
  }

  /** A link to a kept record names the active revision iff that record is of it. */
  lemma KeptName(s: Store, s': Store, target: string)
    requires PointersResolve(s') && RecordsKept(s, s') && target in s.deployments && target != BOOTSTRAP
    ensures NamesRevision(s', Some(target), s'.active) <==> s'.active == Some(s.deployments[target])
  {
  }

  lemma KeptAgreement(s: Store, s': Store, target: Option<string>)
    requires PointersResolve(s') && RecordsKept(s, s') && NamesRevision(s, target, s.active)
    ensures NamesRevision(s', target, s'.active) <==> s'.active == s.active
  {
  }

  /** The agreement survives iff link and pointer moved together, or the revision was active already. */
  lemma AgreementFollowsMoves(s: System, t: Topology, revision: nat, id: string, w: World)
    requires Inv(s.store) && OnlyEditors(w) && LinkNamesActive(s)
    requires id != BOOTSTRAP && id in s.store.deployments && s.store.deployments[id] == revision
    ensures var course := Deployed(s, t, revision, id, w);
            LinkNamesActive(course.sys) <==> course.committed == Moved(course) || s.store.active == Some(revision)
  {
    var course := Deployed(s, t, revision, id, w);
    SettledStore(s, t, revision, id, w);
    PointersAfter(s, t, revision, id, w);
    LinkAfter(s, t, revision, id, w);
    if Moved(course) {
      KeptName(s.store, course.sys.store, id);
    } else {
      KeptAgreement(s.store, course.sys.store, s.current);
    }
  }

  /**
   * When the link still names the active revision after a deployment, told from what it meets: the
   * revision was active already; or the switch was not reached; or the commit was reached and recorded,
   * or could not be undone; or the commit was not reached and the switch was undone.
   */
  lemma AgreementSurvivesIff(s: System, t: Topology, revision: nat, id: string, w: World)
    requires Inv(s.store) && OnlyEditors(w) && LinkNamesActive(s)
    requires id != BOOTSTRAP && id in s.store.deployments && s.store.deployments[id] == revision
    ensures LinkNamesActive(Deployed(s, t, revision, id, w).sys) <==>
              || s.store.active == Some(revision)
              || !SwitchReached(s, id, w)
              || (if CommitReached(s, t, revision, id, w) then Recorded(w) || w.backSwitchFails else !w.backSwitchFails)
  {
    AgreementFollowsMoves(s, t, revision, id, w);
    CourseFromFaults(s, t, revision, id, w);
  }

  // ---------------------------------------------------------------- whole runs

  datatype Step = Edit(op: Op) | Deployment(t: Topology, revision: nat, id: string, w: World)

  function AfterStep(s: System, step: Step): System
  {
    match step
    case Edit(op) => s.(store := Apply(s.store, op))
    case Deployment(t, revision, id, w) =>
      var (created, r) := CreateDeployment(s.store, id, revision);
      if w.createFails || r.Err? then s else Deployed(s.(store := created), t, revision, id, w).sys
  }

  /** No fault after the commit, and an activated deployment either succeeds or reports its rollback. */
  ghost predicate Orderly(s: System, step: Step)
  {
    match step
    case Edit(op) => EditorOp(op)
    case Deployment(t, revision, id, w) =>
      var (created, r) := CreateDeployment(s.store, id, revision);
      && OnlyEditors(w) && id != BOOTSTRAP && !w.finishFails && !w.auditFails
      && (!w.createFails && r.Ok? ==>
            var report := Deployed(s.(store := created), t, revision, id, w).report;
            report.deployed || !report.activated || report.rolledBack)
  }

  function AfterSteps(s: System, steps: seq<Step>): System
  {
    if steps == [] then s else AfterStep(AfterSteps(s, steps[..|steps| - 1]), steps[|steps| - 1])
  }

  ghost predicate OrderlyRun(s: System, steps: seq<Step>)
  {
    forall k | 0 <= k < |steps| :: Orderly(AfterSteps(s, steps[..k]), steps[k])
  }

  lemma CommittedIffDeployed(s: System, t: Topology, revision: nat, id: string, w: World)
    requires !w.finishFails && !w.auditFails
    ensures var course := Deployed(s, t, revision, id, w);
            course.committed == course.report.deployed
            && (course.report.deployed || !course.report.activated || course.report.rolledBack ==>
                  course.committed == Moved(course))
  {
  }

  lemma DeploymentKeepsAgreement(s: System, t: Topology, revision: nat, id: string, w: World)
    requires Inv(s.store) && LinkNamesActive(s) && Orderly(s, Deployment(t, revision, id, w))
    ensures Inv(AfterStep(s, Deployment(t, revision, id, w)).store)
    ensures LinkNamesActive(AfterStep(s, Deployment(t, revision, id, w)))
  {
    var (created, r) := CreateDeployment(s.store, id, revision);
    if r.Ok? {
      var s' := s.(store := created);
      CommittedIffDeployed(s', t, revision, id, w);
      AgreementFollowsMoves(s', t, revision, id, w);
      SettledStore(s', t, revision, id, w);
    }
  }

  lemma EditKeepsAgreement(s: System, op: Op)
    requires Inv(s.store) && LinkNamesActive(s) && EditorOp(op)
    ensures Inv(Apply(s.store, op)) && LinkNamesActive(s.(store := Apply(s.store, op)))
  {
    StepKeeps(s.store, op);
    StepKeepsRecords(s.store, op);
    EditorKeepsPointers(s.store, op);
    KeptAgreement(s.store, Apply(s.store, op), s.current);
  }

  /** Over every orderly run, with edits between and during deployments, the link names the active revision. */
  lemma {:induction false} RunKeepsAgreement(s: System, steps: seq<Step>)
    requires Inv(s.store) && LinkNamesActive(s) && OrderlyRun(s, steps)
    ensures Inv(AfterSteps(s, steps).store) && LinkNamesActive(AfterSteps(s, steps))
  {
    if steps != [] {
      var k := |steps| - 1;
      forall j | 0 <= j < k ensures Orderly(AfterSteps(s, steps[..k][..j]), steps[..k][j]) {
        assert steps[..k][..j] == steps[..j];
      }
      RunKeepsAgreement(s, steps[..k]);
      assert Orderly(AfterSteps(s, steps[..k]), steps[k]);
      match steps[k]
      case Edit(op) => EditKeepsAgreement(AfterSteps(s, steps[..k]), op);
      case Deployment(t, revision, id, w) => DeploymentKeepsAgreement(AfterSteps(s, steps[..k]), t, revision, id, w);
    }
  }

  /** A new installation, linked to nothing or to the bootstrap files. */
  function Installed(t: Topology, c: Cipher, limit: nat, linked: bool): System
  {
    System(Initial(t, c, limit), if linked then Some(BOOTSTRAP) else None, None, None, {})
  }

  /** From a new installation on, after every orderly run the link names the active revision. */
  lemma InstallationKeepsAgreement(t: Topology, c: Cipher, limit: nat, linked: bool, steps: seq<Step>)
    requires OrderlyRun(Installed(t, c, limit, linked), steps)
    ensures LinkNamesActive(AfterSteps(Installed(t, c, limit, linked), steps))
  {
    InitialInv(t, c, limit);
    RunKeepsAgreement(Installed(t, c, limit, linked), steps);
  }
}
