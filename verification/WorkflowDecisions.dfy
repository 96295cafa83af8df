/**
  What each step of creating, recording and deleting a Workflow decides
  (createWorkflowForCategory and handleDeletion, pkg/controller/certification_controller.go).

  Each theorem is about a reachable world and is stated on the holders of names and what is stored.
*/
module WorkflowDecisions {
  import opened Prelude
  import opened WorkflowOwnership

  lemma Unfold(trace: Trace<Step>, step: Step)
    ensures Run(After(trace, step)) == Next(Run(trace), step)
  {
  }

  /** A create makes a Workflow under a free name; a taken name is left as it is and looked at. */
  lemma CreateDecides(trace: Trace<Step>, name: nat)
    requires Run(trace).control == Idle && !Run(trace).released
    ensures var w, n := Run(trace), Run(After(trace, Create(name)));
      if name in w.holders then n == w.(control := Exists(name))
      else
        && n.control == MayRecord(name, w.nextUid)
        && n.holders == w.holders[name := Workflow(w.nextUid, Mine, false)]
        && n.made == w.made[w.nextUid := Origin(Mine, name)]
        && n.versions == w.versions && n.collision == w.collision && n.deleted == w.deleted
  {
    Unfold(trace, Create(name));
    hide Run;
  }

  /**
    The holder of a taken name is adopted if and only if it is the Certification's own; it is a collision
    if and only if it is foreign and not on its way out; otherwise the create is tried again.
  */
  lemma HolderDecides(trace: Trace<Step>)
    requires Run(trace).control.Exists?
    ensures var w, n := Run(trace), Run(After(trace, ReadHolder));
      var name := w.control.name;
      var ours := name in w.holders && w.holders[name].owner == Mine;
      var foreign := name in w.holders && w.holders[name].owner == Foreign && !w.holders[name].terminating;
      && (n.control.MayRecord? <==> ours)
      && (ours ==> n.control == MayRecord(name, w.holders[name].uid))
      && (!ours ==> n.control == Idle)
      && n.collision == (if foreign then Some(w.holders[name].uid) else w.collision)
      && n == w.(control := n.control, collision := n.collision)
  {
    Unfold(trace, ReadHolder);
    hide Run;
  }

  /** A record that lands adds the name once; a lost one changes nothing. */
  lemma RecordDecides(trace: Trace<Step>, lost: bool)
    requires Run(trace).control.MayRecord?
    ensures var w, n := Run(trace), Run(After(trace, Record(lost)));
      var name, names := w.control.name, Last(w.versions);
      && n.control == Idle && n.holders == w.holders && n.deleted == w.deleted
      && (lost ==> n.versions == w.versions)
      && (!lost ==> n.versions == w.versions + [Last(n.versions)] && name in Last(n.versions))
      && (!lost && name in names ==> Last(n.versions) == names)
      && (!lost && name !in names ==> Last(n.versions) == names + [name])
  {
    Unfold(trace, Record(lost));
    hide Run;
  }

  /** The finalizer decides to delete the holder of the next recorded name if and only if it is ours. */
  lemma ReadNextDecides(trace: Trace<Step>)
    requires var w := Run(trace);
      && w.control.Finalizing? && w.control.version < |w.versions|
      && w.control.next < |w.versions[w.control.version]|
    ensures var w, n := Run(trace), Run(After(trace, ReadNext));
      var name := w.versions[w.control.version][w.control.next];
      var ours := name in w.holders && w.holders[name].owner == Mine;
      && (ours ==> n == w.(control := Deleting(w.control.version, w.control.next, w.holders[name].uid)))
      && (!ours ==> n == w.(control := Finalizing(w.control.version, w.control.next + 1)))
  {
    Unfold(trace, ReadNext);
    hide Run;
  }

  /**
    Its delete takes effect if and only if the holder still has the UID that was read. The holder goes at
    once, or is marked as going; nothing else changes, and the finalizer moves on to the next name.
  */
  lemma DeleteDecides(trace: Trace<Step>, atOnce: bool)
    requires Run(trace).control.Deleting?
    ensures var w, n := Run(trace), Run(After(trace, Delete(atOnce)));
      var version, next, uid := w.control.version, w.control.next, w.control.uid;
      && version < |w.versions| && next < |w.versions[version]|
      && var name := w.versions[version][next];
      && var hits := name in w.holders && w.holders[name].uid == uid;
      && n.control == Finalizing(version, next + 1) && n.versions == w.versions
      && n.deleted == (if hits then w.deleted + {uid} else w.deleted)
      && n.holders == (
           if !hits then w.holders
           else if atOnce then w.holders - {name}
           else w.holders[name := Workflow(uid, w.holders[name].owner, true)])
  {
    RunKeepsInv(trace);
    Unfold(trace, Delete(atOnce));
    hide Run, RecordsInv;
  }

  /** The finalizer goes if and only if its loop is done and the version it read is still the stored one. */
  lemma ReleaseDecides(trace: Trace<Step>)
    ensures var w, n := Run(trace), Run(After(trace, Release));
      var done :=
        w.control.Finalizing? && w.control.version == |w.versions| - 1 && w.control.next >= |Last(w.versions)|;
      && (n.released <==> w.released || done)
      && (n.released != w.released ==> n == w.(control := Idle, released := true))
  {
    Unfold(trace, Release);
    hide Run;
  }

  // ---- The loop of the finalizer ----

  /** With nobody else at work the steps of the finalizer are its loop. */
  lemma {:induction false} LoopIsRun(trace: Trace<Step>, atOnce: bool) returns (longer: Trace<Step>)
    requires Run(trace).control.Finalizing? && Run(trace).control.version < |Run(trace).versions|
    ensures Run(longer) == Pass(Run(trace), atOnce)
    decreases |Run(trace).versions[Run(trace).control.version]| - Run(trace).control.next
  {
    hide Run;
    var w := Run(trace);
    longer := trace;
    if w.control.next < |w.versions[w.control.version]| {
      longer := OneNameIsRun(trace, atOnce);
      longer := LoopIsRun(longer, atOnce);
    }
  }

  lemma ReadNextMoves(w: World)
    requires w.control.Finalizing? && w.control.version < |w.versions|
    requires w.control.next < |w.versions[w.control.version]|
    ensures var n := DoReadNext(w);
      && n.versions == w.versions
      && (n.control.Deleting? ==> n.control.version == w.control.version && n.control.next == w.control.next)
  {
  }

  lemma OneNameIsRun(trace: Trace<Step>, atOnce: bool) returns (longer: Trace<Step>)
    requires var w := Run(trace);
      && w.control.Finalizing? && w.control.version < |w.versions|
      && w.control.next < |w.versions[w.control.version]|
    ensures var w := Run(trace);
      var w1 := DoReadNext(w);
      && Run(longer) == (if w1.control.Deleting? then DoDelete(w1, atOnce) else w1)
      && Run(longer).versions == w.versions
      && Run(longer).control == Finalizing(w.control.version, w.control.next + 1)
  {
    hide Run, DoReadNext, DoDelete;
    longer := After(trace, ReadNext);
    Unfold(trace, ReadNext);
    OneName(Run(trace), atOnce, 0);
    ReadNextMoves(Run(trace));
    if Run(longer).control.Deleting? {
      Unfold(longer, Delete(atOnce));
      longer := After(longer, Delete(atOnce));
    }
  }

  /**
    From every run: a finalizer that starts on the stored version, with nobody else at work, ends with the
    Certification released, and of the live Workflows of its own exactly those survive whose name was not
    recorded.
  */
  lemma FinalizerCompletes(trace: Trace<Step>, atOnce: bool) returns (longer: Trace<Step>)
    requires var w := Run(trace); w.control == Idle && w.deletionAsked && !w.released
    ensures var w, n := Run(trace), Run(longer);
      && n.released
      && forall name :: Live(n, name) <==> Live(w, name) && name !in Last(w.versions)
  {
    var w := Run(trace);
    var begun := After(trace, BeginFinalize(|w.versions| - 1));
    Unfold(trace, begun.step);
    var b := Run(begun);
    assert b == w.(control := Finalizing(|w.versions| - 1, 0));
    hide Run;
    var done := LoopIsRun(begun, atOnce);
    longer := After(done, Release);
    Unfold(done, Release);
    PassEnds(b, atOnce);
    forall name ensures Live(Run(longer), name) <==> Live(w, name) && name !in Last(w.versions) {
      SurvivesIff(b, atOnce, name);
      assert Last(w.versions)[0..] == Last(w.versions);
    }
  }

  lemma {:induction false} PassEnds(w: World, atOnce: bool)
    requires w.control.Finalizing? && w.control.version < |w.versions|
    requires w.control.next <= |w.versions[w.control.version]|
    ensures var n := Pass(w, atOnce);
      && n.control == Finalizing(w.control.version, |w.versions[w.control.version]|)
      && n.versions == w.versions && n.released == w.released
    decreases |w.versions[w.control.version]| - w.control.next
  {
    if w.control.next < |w.versions[w.control.version]| {
      OneName(w, atOnce, 0);
      var w1 := DoReadNext(w);
      PassEnds(if w1.control.Deleting? then DoDelete(w1, atOnce) else w1, atOnce);
    }
  }
}
