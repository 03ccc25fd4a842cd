/** State labels produced by the refresh functions and the pending/target label
    sets the lifecycle operations wait on. The waiting engine itself (polling,
    delays, timeouts) belongs to the Terraform library and is not modelled: only
    how one refresh result stands against a wait's label sets. */
module Poll {
  import opened Remote

  /** The label every refresh function reports for a NotFound Get. */
  const Deleted: string := "Deleted"

  /** The (state, err) pair a refresh function hands to the waiting engine;
      the snapshot it also returns is not modelled. */
  datatype Refresh = Refresh(state: string, error: Option<Error>)

  /** The Pending and Target label sets of one wait. */
  datatype Wait = Wait(pending: set<string>, target: set<string>)

  const CreateWait: Wait := Wait({"ToCreate", "Creating"}, {"Created"})
  const DeleteWait: Wait := Wait({"ToDelete", "Deleting"}, {Deleted})
  /** Projects have no intermediate states: their delete wait starts from "Created". */
  const ProjectDeleteWait: Wait := Wait({"Created"}, {Deleted})
  /** Volume task waits: "" means that no task is in flight. */
  const DetachWait: Wait := Wait({"DETACHING"}, {""})
  const GrowWait: Wait := Wait({"GROWING"}, {""})
  const AttachWait: Wait := Wait({"ATTACHING"}, {""})

  /** The refresh ends the wait successfully. */
  predicate Reaches(r: Refresh, w: Wait) {
    r.error.None? && r.state in w.target
  }

  /** The refresh keeps the wait polling. */
  predicate Pends(r: Refresh, w: Wait) {
    r.error.None? && r.state in w.pending
  }

  /** The refresh fails the wait: an error, or a label in neither set. */
  predicate Fails(r: Refresh, w: Wait) {
    r.error.Some? || (r.state !in w.pending && r.state !in w.target)
  }

  /** The shared shape of every refresh function: a successful Get yields
      `field` of the snapshot, NotFound yields "Deleted" with no error, and
      any other error yields "" with that error. */
  function Classify(got: Outcome<Snapshot>, field: Snapshot -> string): (r: Refresh)
    ensures got.Ok? ==> r == Refresh(field(got.value), None)
    ensures got.Err? && IsNotFound(got.error) ==> r == Refresh(Deleted, None)
    ensures got.Err? && !IsNotFound(got.error) ==> r == Refresh("", Some(got.error))
  {
    match got
    case Ok(s) => Refresh(field(s), None)
    case Err(e) => if IsNotFound(e) then Refresh(Deleted, None) else Refresh("", Some(e))
  }

  /** The state classifier every lifecycle resource but the project
      defines (NetworkRefreshFunc, InstanceRefreshFunc, ZoneRefreshFunc,
      RegionRefreshFunc, ImageRefreshFunc, RoleRefreshFunc,
      SerivceAccountRefreshFunc, VolumeStateRefreshFunc): the resource's
      state, "Deleted" when it is not found, "" with the error otherwise. */
  function StateRefresh(got: Outcome<Snapshot>): (r: Refresh)
    ensures got.Ok? ==> r == Refresh(got.value.state, None)
    ensures got.Err? && IsNotFound(got.error) ==> r == Refresh(Deleted, None)
    ensures got.Err? && !IsNotFound(got.error) ==> r == Refresh("", Some(got.error))
  {
    Classify(got, (s: Snapshot) => s.state)
  }

  /** Against the create and delete waits: creation ends only on a "Created"
      resource and keeps polling only on "ToCreate"/"Creating"; a missing
      resource ends the delete wait and fails the create wait; an error other
      than NotFound fails both. */
  lemma StateRefreshAgainstWaits(got: Outcome<Snapshot>)
    ensures Reaches(StateRefresh(got), CreateWait) <==> got.Ok? && got.value.state == "Created"
    ensures Pends(StateRefresh(got), CreateWait) <==> got.Ok? && got.value.state in {"ToCreate", "Creating"}
    ensures Reaches(StateRefresh(got), DeleteWait) <==>
      (got.Ok? && got.value.state == Deleted) || (got.Err? && IsNotFound(got.error))
    ensures Pends(StateRefresh(got), DeleteWait) <==> got.Ok? && got.value.state in {"ToDelete", "Deleting"}
    ensures got.Err? && IsNotFound(got.error) ==> Fails(StateRefresh(got), CreateWait)
    ensures got.Err? && !IsNotFound(got.error) ==>
      Fails(StateRefresh(got), CreateWait) && Fails(StateRefresh(got), DeleteWait)
  {
  }

  /** Every refresh result falls into exactly one of the three cases of a wait
      whose pending and target sets are disjoint. */
  lemma Trichotomy(r: Refresh, w: Wait)
    requires w.pending !! w.target
    ensures Reaches(r, w) || Pends(r, w) || Fails(r, w)
    ensures !(Reaches(r, w) && Pends(r, w))
    ensures !(Reaches(r, w) && Fails(r, w)) && !(Pends(r, w) && Fails(r, w))
  {
  }

  /** The fixed label sets: pending and target are disjoint in every wait; the
      NotFound label ends every delete wait and fails every create and task wait. */
  lemma WaitsWellFormed()
    ensures CreateWait.pending !! CreateWait.target
    ensures DeleteWait.pending !! DeleteWait.target
    ensures ProjectDeleteWait.pending !! ProjectDeleteWait.target
    ensures DetachWait.pending !! DetachWait.target
    ensures GrowWait.pending !! GrowWait.target
    ensures AttachWait.pending !! AttachWait.target
    ensures Deleted in DeleteWait.target && Deleted in ProjectDeleteWait.target
    ensures Deleted !in CreateWait.pending && Deleted !in CreateWait.target
    ensures forall w :: w in {DetachWait, GrowWait, AttachWait} ==>
      "" in w.target && Deleted !in w.pending && Deleted !in w.target
  {
  }
}
