/** The volume resource: created empty or cloned, converged on its desired
    size and attachment by detach, grow and attach actions, and deleted by a
    fixed four-phase sequence. */
module Volume {
  import opened Remote
  import opened Poll
  import opened Driver

  const Kind: string := "volume"

  /** VolumeTaskRefreshFunc: the task in flight on the volume ("" when there
      is none), "Deleted" when it is not found, "" with the error otherwise. */
  function TaskRefresh(got: Outcome<Snapshot>): (r: Poll.Refresh)
    ensures got.Ok? ==> r == Poll.Refresh(got.value.task, None)
    ensures got.Err? && IsNotFound(got.error) ==> r == Poll.Refresh(Deleted, None)
    ensures got.Err? && !IsNotFound(got.error) ==> r == Poll.Refresh("", Some(got.error))
  {
    Classify(got, (s: Snapshot) => s.task)
  }

  /** A task wait (detach, grow or attach) ends exactly when the volume is
      found with no task in flight; a volume that disappears fails it, as
      does any other error. */
  lemma TaskRefreshAgainstWaits(got: Outcome<Snapshot>, w: Wait)
    requires w in {DetachWait, GrowWait, AttachWait}
    ensures Reaches(TaskRefresh(got), w) <==> got.Ok? && got.value.task == ""
    ensures got.Err? ==> Fails(TaskRefresh(got), w)
  {
    WaitsWellFormed();
  }

  function DetachSteps(h: string): seq<Step> {
    [Step(Detach(h), TolerateConflict), AwaitStep(Kind, h, DetachWait, "detach")]
  }

  function GrowSteps(h: string, size: int): seq<Step> {
    [Step(Grow(h, size), Abort), AwaitStep(Kind, h, GrowWait, "grow")]
  }

  function AttachSteps(h: string, instance: string): seq<Step> {
    [Step(Attach(h, instance), Abort), AwaitStep(Kind, h, AttachWait, "attach")]
  }

  /** The actions resourceVolumeUpdate takes on volume `h` once its Get
      returned `observed`: detach when the attachment differs from the wanted
      one, grow when the size differs, attach when an instance is wanted;
      each with its wait, in that order, then the Get of Read. */
  function UpdatePlan(h: string, observed: Snapshot, size: int, want: Uuid): seq<Step> {
    (if observed.attachedTo != want then DetachSteps(h) else []) + GrowPlan(h, observed, size, want)
  }

  /** The update plan from the grow phase on. */
  function GrowPlan(h: string, observed: Snapshot, size: int, want: Uuid): seq<Step> {
    (if observed.size != size then GrowSteps(h, size) else []) + AttachPlan(h, want)
  }

  /** The update plan from the attach phase on. */
  function AttachPlan(h: string, want: Uuid): seq<Step> {
    (if want.Uuid? then AttachSteps(h, want.text) else []) + [ReadStep(h)]
  }

  /** The steps of the four delete phases. */
  function DeletePlan(h: string): seq<Step> {
    DetachSteps(h) + [Step(Delete(h), Abort), AwaitStep(Kind, h, DeleteWait, "delete")]
  }

  /** What an operation returns and leaves behind: its error, the calls it
      issued and the record id. */
  datatype Effect = Effect(err: Option<Error>, calls: seq<Call>, id: string)

  /** resourceVolumeUpdate on record id `h`: an unparseable attached_to fails
      before any call; a NotFound Get clears the id and does nothing more;
      another Get error is returned; otherwise the update plan runs until its
      first failure, and a NotFound in its final Read clears the id. */
  function UpdateEffect(h: string, parsed: Outcome<Uuid>, size: int, observed: Outcome<Snapshot>,
                        reply: Call -> Option<Error>): Effect
  {
    if parsed.Err? then Effect(Some(parsed.error), [], h)
    else if observed.Err? then
      if IsNotFound(observed.error) then Effect(None, [Get(h)], "") else Effect(Some(observed.error), [Get(h)], h)
    else
      var r := Execute(UpdatePlan(h, observed.value, size, parsed.value), reply);
      Effect(ErrorOf(r.end), [Get(h)] + r.issued, if r.end.Absent? then "" else h)
  }

  /** Which phase a step of the update plan belongs to. */
  function Phase(s: Step): nat {
    match s.call
    case Detach(_) => 0
    case Grow(_, _) => 1
    case Attach(_, _) => 2
    case Await(_, w) => if w == DetachWait then 0 else if w == GrowWait then 1 else if w == AttachWait then 2 else 3
    case _ => 3
  }

  /** A detach is planned exactly when the observed attachment differs from
      the wanted one. */
  lemma PlanDetachesIff(h: string, observed: Snapshot, size: int, want: Uuid)
    ensures Step(Detach(h), TolerateConflict) in UpdatePlan(h, observed, size, want) <==> observed.attachedTo != want
  {
    var plan := UpdatePlan(h, observed, size, want);
    if observed.attachedTo != want {
      assert plan[0] == Step(Detach(h), TolerateConflict);
    }
  }

  /** A grow to the wanted size is planned exactly when the observed size
      differs, smaller or larger: nothing checks that the volume grows. */
  lemma PlanGrowsIff(h: string, observed: Snapshot, size: int, want: Uuid)
    ensures Step(Grow(h, size), Abort) in UpdatePlan(h, observed, size, want) <==> observed.size != size
    ensures observed.size > size ==> Step(Grow(h, size), Abort) in UpdatePlan(h, observed, size, want)
  {
    var plan := UpdatePlan(h, observed, size, want);
    var first := if observed.attachedTo != want then DetachSteps(h) else [];
    if observed.size != size {
      assert plan[|first|] == Step(Grow(h, size), Abort);
    }
  }

  /** An attach is planned exactly when an instance is wanted, even when
      the volume is already attached to it. */
  lemma PlanAttachesIff(h: string, observed: Snapshot, size: int, want: Uuid)
    ensures want.Uuid? ==> Step(Attach(h, want.text), Abort) in UpdatePlan(h, observed, size, want)
    ensures (exists instance :: Step(Attach(h, instance), Abort) in UpdatePlan(h, observed, size, want)) <==> want.Uuid?
    ensures observed.attachedTo == want && want.Uuid? ==>
      Step(Detach(h), TolerateConflict) !in UpdatePlan(h, observed, size, want) &&
      Step(Attach(h, want.text), Abort) in UpdatePlan(h, observed, size, want)
  {
    var plan := UpdatePlan(h, observed, size, want);
    var first := (if observed.attachedTo != want then DetachSteps(h) else []) +
                 (if observed.size != size then GrowSteps(h, size) else []);
    assert plan == first + ((if want.Uuid? then AttachSteps(h, want.text) else []) + [ReadStep(h)]);
    if want.Uuid? {
      assert plan[|first|] == Step(Attach(h, want.text), Abort);
    }
    PlanDetachesIff(h, observed, size, want);
  }

  /** The plan runs detach, then grow, then attach, then Read: the phases of
      its steps never go back, every action is directly followed by its own
      wait, and the last step is the Get of Read. */
  lemma {:induction false} PlanOrder(h: string, observed: Snapshot, size: int, want: Uuid)
    ensures var plan := UpdatePlan(h, observed, size, want);
      && (forall i, j :: 0 <= i < j < |plan| ==> Phase(plan[i]) <= Phase(plan[j]))
      && (forall i :: 0 <= i < |plan| && !plan[i].call.Await? && !plan[i].call.Get? ==>
            i + 1 < |plan| && plan[i + 1].call.Await? && Phase(plan[i + 1]) == Phase(plan[i]))
      && plan[|plan| - 1] == ReadStep(h)
  {
    var a := if observed.attachedTo != want then DetachSteps(h) else [];
    var b := if observed.size != size then GrowSteps(h, size) else [];
    var c := if want.Uuid? then AttachSteps(h, want.text) else [];
    var plan := UpdatePlan(h, observed, size, want);
    assert plan == a + b + c + [ReadStep(h)];
    assert DetachWait != GrowWait && DetachWait != AttachWait && GrowWait != AttachWait by {
      assert "DETACHING" in DetachWait.pending && "DETACHING" !in GrowWait.pending && "DETACHING" !in AttachWait.pending;
      assert "GROWING" in GrowWait.pending && "GROWING" !in AttachWait.pending;
    }
    forall i | 0 <= i < |plan|
      ensures Phase(plan[i]) == (if i < |a| then 0 else if i < |a| + |b| then 1 else if i < |a| + |b| + |c| then 2 else 3)
    {
      if i < |a| {
        assert plan[i] == a[i];
      } else if i < |a| + |b| {
        assert plan[i] == b[i - |a|];
      } else if i < |a| + |b| + |c| {
        assert plan[i] == c[i - |a| - |b|];
      } else {
        assert plan[i] == ReadStep(h);
      }
    }
    forall i | 0 <= i < |plan| && !plan[i].call.Await? && !plan[i].call.Get?
      ensures i + 1 < |plan| && plan[i + 1].call.Await? && Phase(plan[i + 1]) == Phase(plan[i])
    {
      if i < |a| {
        assert plan[i] == a[i];
        assert i == 0 && plan[i + 1] == a[1];
      } else if i < |a| + |b| {
        assert plan[i] == b[i - |a|];
        assert i == |a| && plan[i + 1] == b[1];
      } else if i < |a| + |b| + |c| {
        assert plan[i] == c[i - |a| - |b|];
        assert i == |a| + |b| && plan[i + 1] == c[1];
      } else {
        assert false;
      }
    }
  }

  /** Update changes the record id only to clear it, and only when the volume
      is reported gone: either its first Get was NotFound, or every action
      and wait passed and the Get of the final Read was NotFound. Neither is
      an error. */
  lemma UpdateClearsIdOnlyWhenGone(h: string, parsed: Outcome<Uuid>, size: int, observed: Outcome<Snapshot>,
                                   reply: Call -> Option<Error>)
    ensures var u := UpdateEffect(h, parsed, size, observed, reply);
      u.id != h ==>
        && u.id == "" && u.err.None? && parsed.Ok?
        && ((observed.Err? && IsNotFound(observed.error)) ||
            (observed.Ok? && |u.calls| >= 2 && u.calls[|u.calls| - 1] == Get(h) &&
             reply(Get(h)).Some? && IsNotFound(reply(Get(h)).value)))
  {
    if parsed.Ok? && observed.Ok? {
      var want, volume := parsed.value, observed.value;
      var plan := UpdatePlan(h, volume, size, want);
      var r := Execute(plan, reply);
      if r.end.Absent? {
        AbsentEnd(plan, reply);
        var k := |r.issued| - 1;
        OnlyReadToleratesAbsence(h, volume, size, want);
      }
    }
  }

  /** The Get of the final Read is the only step of the update plan that
      treats NotFound as "already gone". */
  lemma OnlyReadToleratesAbsence(h: string, volume: Snapshot, size: int, want: Uuid)
    ensures var plan := UpdatePlan(h, volume, size, want);
      forall k :: 0 <= k < |plan| && plan[k].onError.AbsentIsDone? ==> plan[k] == ReadStep(h)
  {
    var plan := UpdatePlan(h, volume, size, want);
    var a := if volume.attachedTo != want then DetachSteps(h) else [];
    var b := if volume.size != size then GrowSteps(h, size) else [];
    var c := if want.Uuid? then AttachSteps(h, want.text) else [];
    assert plan == a + b + c + [ReadStep(h)];
    forall k | 0 <= k < |plan|
      ensures plan[k].onError.AbsentIsDone? ==> plan[k] == ReadStep(h)
    {
      if k < |a| {
        assert plan[k] == a[k];
      } else if k < |a| + |b| {
        assert plan[k] == b[k - |a|];
      } else if k < |a| + |b| + |c| {
        assert plan[k] == c[k - |a| - |b|];
      }
    }
  }

  /** The detach of Update and Delete: only an API error other than 409
      stops the operation; a 409 or an error that is not an API error is
      ignored and the detach wait follows. */
  lemma DetachTolerance(h: string, reply: Call -> Option<Error>)
    ensures Passes(Step(Detach(h), TolerateConflict), reply) <==>
      reply(Detach(h)).None? || !reply(Detach(h)).value.ApiError? || reply(Detach(h)).value.statusCode == 409
  {
  }

  /** resourceVolumeUpdate, step by step. */
  method UpdateResource(d: ResourceData, parsed: Outcome<Uuid>, size: int, observed: Outcome<Snapshot>,
                reply: Call -> Option<Error>)
    returns (err: Option<Error>, calls: seq<Call>)
    modifies d
    ensures Effect(err, calls, d.id) == UpdateEffect(old(d.id), parsed, size, observed, reply)
    ensures d.fields == old(d.fields)
  {
    var h := d.id;
    if parsed.Err? {
      return Some(parsed.error), [];
    }
    calls := [Get(h)];
    if observed.Err? {
      if IsNotFound(observed.error) {
        d.id := "";
        return None, calls;
      }
      return Some(observed.error), calls;
    }
    var end, issued := Converge(h, observed.value, size, parsed.value, reply);
    calls := calls + issued;
    err := ErrorOf(end);
    if end.Absent? {
      d.id := "";
    }
  }

  /** The detach, grow and attach phases of resourceVolumeUpdate on a volume
      whose Get returned `volume`, followed by the Get of Read. The detach
      stage: only an API error other than 409 stops it before its wait. */
  method Converge(h: string, volume: Snapshot, size: int, want: Uuid, reply: Call -> Option<Error>)
    returns (end: End, issued: seq<Call>)
    ensures Run(issued, end) == Execute(UpdatePlan(h, volume, size, want), reply)
  {
    var next := GrowPlan(h, volume, size, want);
    if volume.attachedTo != want {
      ExecutePair(DetachSteps(h)[0], DetachSteps(h)[1], next, reply);
      var e := reply(Detach(h));
      if e.Some? && e.value.ApiError? && e.value.statusCode != 409 {
        return Failed(e.value), [Detach(h)];
      }
      e := reply(Await(h, DetachWait));
      if e.Some? {
        return Failed(Waiting(Kind, h, "detach", e.value)), [Detach(h), Await(h, DetachWait)];
      }
      end, issued := GrowStage(h, volume, size, want, reply);
      issued := [Detach(h), Await(h, DetachWait)] + issued;
    } else {
      assert UpdatePlan(h, volume, size, want) == next;
      end, issued := GrowStage(h, volume, size, want, reply);
    }
  }

  /** The grow stage of resourceVolumeUpdate and what follows it. */
  method GrowStage(h: string, volume: Snapshot, size: int, want: Uuid, reply: Call -> Option<Error>)
    returns (end: End, issued: seq<Call>)
    ensures Run(issued, end) == Execute(GrowPlan(h, volume, size, want), reply)
  {
    var next := AttachPlan(h, want);
    if volume.size != size {
      ExecutePair(GrowSteps(h, size)[0], GrowSteps(h, size)[1], next, reply);
      var e := reply(Grow(h, size));
      if e.Some? {
        return Failed(e.value), [Grow(h, size)];
      }
      e := reply(Await(h, GrowWait));
      if e.Some? {
        return Failed(Waiting(Kind, h, "grow", e.value)), [Grow(h, size), Await(h, GrowWait)];
      }
      end, issued := AttachStage(h, want, reply);
      issued := [Grow(h, size), Await(h, GrowWait)] + issued;
    } else {
      assert GrowPlan(h, volume, size, want) == next;
      end, issued := AttachStage(h, want, reply);
    }
  }

  /** The attach stage of resourceVolumeUpdate and the Read that ends it. */
  method AttachStage(h: string, want: Uuid, reply: Call -> Option<Error>)
    returns (end: End, issued: seq<Call>)
    ensures Run(issued, end) == Execute(AttachPlan(h, want), reply)
  {
    ExecuteCons(ReadStep(h), [], reply);
    if want.Uuid? {
      ExecutePair(AttachSteps(h, want.text)[0], AttachSteps(h, want.text)[1], [ReadStep(h)], reply);
      var e := reply(Attach(h, want.text));
      if e.Some? {
        return Failed(e.value), [Attach(h, want.text)];
      }
      e := reply(Await(h, AttachWait));
      if e.Some? {
        return Failed(Waiting(Kind, h, "attach", e.value)), [Attach(h, want.text), Await(h, AttachWait)];
      }
      issued := [Attach(h, want.text), Await(h, AttachWait), Get(h)];
    } else {
      assert AttachPlan(h, want) == [ReadStep(h)];
      issued := [Get(h)];
    }
    var e := reply(Get(h));
    if e.None? {
      end := Completed;
    } else if IsNotFound(e.value) {
      end := Absent;
    } else {
      end := Failed(e.value);
    }
  }

  /** resourceVolumeDelete: detach (only an API error other than 409 stops
      it), wait for the detach, Delete, wait for "Deleted"; the first failure
      is returned, and the id is cleared only after all four succeeded. A
      NotFound from Delete is an error here like any other. */
  method DeleteResource(d: ResourceData, reply: Call -> Option<Error>) returns (err: Option<Error>, calls: seq<Call>)
    modifies d
    ensures var r := Execute(DeletePlan(old(d.id)), reply);
      calls == r.issued && err == ErrorOf(r.end) && d.id == (if r.end.Completed? then "" else old(d.id))
    ensures d.fields == old(d.fields)
  {
    var h := d.id;
    var tail := [Step(Delete(h), Abort), AwaitStep(Kind, h, DeleteWait, "delete")];
    ExecutePair(DetachSteps(h)[0], DetachSteps(h)[1], tail, reply);
    ExecutePair(tail[0], tail[1], [], reply);
    assert tail == [tail[0], tail[1]] + [];
    var e := reply(Detach(h));
    if e.Some? && e.value.ApiError? && e.value.statusCode != 409 {
      return e, [Detach(h)];
    }
    e := reply(Await(h, DetachWait));
    if e.Some? {
      return Some(Waiting(Kind, h, "detach", e.value)), [Detach(h), Await(h, DetachWait)];
    }
    e := reply(Delete(h));
    if e.Some? {
      return e, [Detach(h), Await(h, DetachWait), Delete(h)];
    }
    calls := [Detach(h), Await(h, DetachWait), Delete(h), Await(h, DeleteWait)];
    e := reply(Await(h, DeleteWait));
    if e.Some? {
      return Some(Waiting(Kind, h, "delete", e.value)), calls;
    }
    d.id := "";
    err := None;
  }

  /** The delete sequence never ends as "already gone": it completes exactly
      when all four calls pass, and otherwise stops at the first that does
      not, having issued the calls before it. */
  lemma DeleteCompletesIff(h: string, reply: Call -> Option<Error>)
    ensures var r := Execute(DeletePlan(h), reply);
      && !r.end.Absent?
      && (r.end.Completed? <==> forall k :: 0 <= k < 4 ==> Passes(DeletePlan(h)[k], reply))
      && (r.end.Completed? ==> r.issued == [Detach(h), Await(h, DetachWait), Delete(h), Await(h, DeleteWait)])
      && (reply(Delete(h)).Some? && Passes(DeletePlan(h)[0], reply) && Passes(DeletePlan(h)[1], reply) ==>
            r.end == Failed(reply(Delete(h)).value) && |r.issued| == 3)
  {
    ExecuteSpec(DeletePlan(h), reply);
    var tail := [Step(Delete(h), Abort), AwaitStep(Kind, h, DeleteWait, "delete")];
    ExecutePair(DetachSteps(h)[0], DetachSteps(h)[1], tail, reply);
    ExecutePair(tail[0], tail[1], [], reply);
    assert tail == [tail[0], tail[1]] + [];
  }

  /** resourceVolumeCreate: without cloned_from, Create the volume; with it,
      Get the source volume and clone it. A failure there is returned with no
      id set. Otherwise the new volume's id is recorded before the wait for
      "Created", so a failed wait leaves it set; after the wait, Update runs
      on the new volume. */
  method CreateResource(d: ResourceData, name: string, clonedFrom: string, source: Outcome<Snapshot>,
                created: Outcome<Snapshot>, parsed: Outcome<Uuid>, size: int, observed: Outcome<Snapshot>,
                reply: Call -> Option<Error>)
    returns (err: Option<Error>, calls: seq<Call>)
    modifies d
    ensures clonedFrom != "" && source.Err? ==>
      err == Some(source.error) && calls == [Get(clonedFrom)] && d.id == old(d.id)
    ensures clonedFrom == "" || source.Ok? ==>
      var issued := if clonedFrom == "" then [Create(name)] else [Get(clonedFrom), Clone(source.value.handle, name)];
      && (created.Err? ==>
            err == Some(created.error) && calls == issued && d.id == old(d.id))
      && (created.Ok? ==>
            var h := created.value.handle;
            var w := reply(Await(h, CreateWait));
            && (w.Some? ==>
                  err == Some(Waiting(Kind, h, "become ready", w.value)) && calls == issued + [Await(h, CreateWait)] &&
                  d.id == h)
            && (w.None? ==>
                  var u := UpdateEffect(h, parsed, size, observed, reply);
                  err == u.err && calls == issued + [Await(h, CreateWait)] + u.calls && d.id == u.id))
    ensures d.fields == old(d.fields)
  {
    if clonedFrom == "" {
      calls := [Create(name)];
    } else {
      calls := [Get(clonedFrom)];
      if source.Err? {
        return Some(source.error), calls;
      }
      calls := calls + [Clone(source.value.handle, name)];
    }
    if created.Err? {
      return Some(created.error), calls;
    }
    var h := created.value.handle;
    d.id := h;
    calls := calls + [Await(h, CreateWait)];
    var w := reply(Await(h, CreateWait));
    if w.Some? {
      return Some(Waiting(Kind, h, "become ready", w.value)), calls;
    }
    var updateCalls;
    err, updateCalls := UpdateResource(d, parsed, size, observed, reply);
    calls := calls + updateCalls;
  }
}
