/** The region resource: created, polled until "Created", then scheduled as
    desired; deleted only after it was unscheduled. */
module Region {
  import opened Remote
  import opened Poll
  import opened Driver

  const Kind: string := "region"
  const SchedulableField: string := "schedulable"

  /** The calls of Delete: unschedule, Delete, wait for "Deleted". */
  function DeletePlan(h: string): seq<Step> {
    [Step(Schedule(h, false), Abort), Step(Delete(h), Abort), AwaitStep(Kind, h, DeleteWait, "delete")]
  }

  /** resourceRegionRead, given the reply `got` to its Get: NotFound clears
      the id and is not an error; another error is returned; a found region's
      schedulable flag is copied into the record. */
  method Read(d: ResourceData, got: Outcome<Snapshot>) returns (err: Option<Error>)
    modifies d
    ensures got.Ok? ==>
      err.None? && d.id == old(d.id) && d.fields == old(d.fields)[SchedulableField := Flag(got.value.schedulable)]
    ensures got.Err? && IsNotFound(got.error) ==> err.None? && d.id == "" && d.fields == old(d.fields)
    ensures got.Err? && !IsNotFound(got.error) ==>
      err == Some(got.error) && d.id == old(d.id) && d.fields == old(d.fields)
  {
    if got.Err? {
      if IsNotFound(got.error) {
        d.id := "";
        return None;
      }
      return Some(got.error);
    }
    d.fields := d.fields[SchedulableField := Flag(got.value.schedulable)];
    err := None;
  }

  /** resourceRegionUpdate: ActionSchedule with the desired flag; its error is
      returned before any Get; otherwise Read, given the reply `got` to its Get. */
  method UpdateResource(d: ResourceData, schedulable: bool, reply: Call -> Option<Error>, got: Outcome<Snapshot>)
    returns (err: Option<Error>, calls: seq<Call>)
    modifies d
    ensures var h, e := old(d.id), reply(Schedule(old(d.id), schedulable));
      && (e.Some? ==> err == e && calls == [Schedule(h, schedulable)] && d.id == h && d.fields == old(d.fields))
      && (e.None? ==> calls == [Schedule(h, schedulable), Get(h)])
      && (e.None? && got.Ok? ==>
            err.None? && d.id == h && d.fields == old(d.fields)[SchedulableField := Flag(got.value.schedulable)])
      && (e.None? && got.Err? ==>
            err == (if IsNotFound(got.error) then None else Some(got.error)) &&
            d.id == (if IsNotFound(got.error) then "" else h) && d.fields == old(d.fields))
  {
    var h := d.id;
    calls := [Schedule(h, schedulable)];
    err := reply(Schedule(h, schedulable));
    if err.Some? {
      return;
    }
    calls := calls + [Get(h)];
    err := Read(d, got);
  }

  /** resourceRegionCreate: a failed Create is returned with no id; otherwise
      the region's id is recorded before the wait, so a failed wait leaves it
      set; after the wait, Update schedules the region as desired and Read
      copies the flag the region then reports. */
  method CreateResource(d: ResourceData, name: string, schedulable: bool, created: Outcome<Snapshot>,
                        reply: Call -> Option<Error>, got: Outcome<Snapshot>)
    returns (err: Option<Error>, calls: seq<Call>)
    modifies d
    ensures created.Err? ==>
      err == Some(created.error) && calls == [Create(name)] && d.id == old(d.id) && d.fields == old(d.fields)
    ensures created.Ok? ==>
      var h := created.value.handle;
      var w := reply(Await(h, CreateWait));
      var e := reply(Schedule(h, schedulable));
      && (w.Some? ==>
            err == Some(Waiting(Kind, h, "become ready", w.value)) &&
            calls == [Create(name), Await(h, CreateWait)] && d.id == h && d.fields == old(d.fields))
      && (w.None? && e.Some? ==>
            err == e && calls == [Create(name), Await(h, CreateWait), Schedule(h, schedulable)] &&
            d.id == h && d.fields == old(d.fields))
      && (w.None? && e.None? ==>
            calls == [Create(name), Await(h, CreateWait), Schedule(h, schedulable), Get(h)])
      && (w.None? && e.None? && got.Ok? ==>
            err.None? && d.id == h && d.fields == old(d.fields)[SchedulableField := Flag(got.value.schedulable)])
      && (w.None? && e.None? && got.Err? ==>
            err == (if IsNotFound(got.error) then None else Some(got.error)) &&
            d.id == (if IsNotFound(got.error) then "" else h) && d.fields == old(d.fields))
  {
    calls := [Create(name)];
    if created.Err? {
      return Some(created.error), calls;
    }
    var h := created.value.handle;
    d.id := h;
    calls := calls + [Await(h, CreateWait)];
    var w := reply(Await(h, CreateWait));
    if w.Some? {
      return Some(Waiting(Kind, h, "become ready", w.value)), calls;
    }
    var updateCalls;
    err, updateCalls := UpdateResource(d, schedulable, reply, got);
    calls := calls + updateCalls;
  }

  /** resourceRegionDelete: unschedule first, and a failure there returns
      before Delete is issued; any Delete error, NotFound included, is
      returned before polling; the id is cleared only once the wait for
      "Deleted" succeeded. */
  method DeleteResource(d: ResourceData, reply: Call -> Option<Error>)
    returns (err: Option<Error>, calls: seq<Call>)
    modifies d
    ensures var r := Execute(DeletePlan(old(d.id)), reply);
      calls == r.issued && err == ErrorOf(r.end) && d.id == (if r.end.Completed? then "" else old(d.id))
    ensures var h, u := old(d.id), reply(Schedule(old(d.id), false));
      var e := reply(Delete(h));
      var w := reply(Await(h, DeleteWait));
      && calls[0] == Schedule(h, false)
      && (u.Some? ==> err == u && calls == [Schedule(h, false)] && d.id == h)
      && (u.None? && e.Some? ==> err == e && calls == [Schedule(h, false), Delete(h)] && d.id == h)
      && (u.None? && e.None? ==> calls == [Schedule(h, false), Delete(h), Await(h, DeleteWait)])
      && (u.None? && e.None? && w.Some? ==> err == Some(Waiting(Kind, h, "delete", w.value)) && d.id == h)
      && (u.None? && e.None? && w.None? ==> err.None? && d.id == "")
    ensures d.fields == old(d.fields)
  {
    var h := d.id;
    var plan := DeletePlan(h);
    ExecutePair(plan[0], plan[1], [plan[2]], reply);
    ExecuteCons(plan[2], [], reply);
    assert plan == [plan[0], plan[1]] + [plan[2]];
    assert [plan[2]] == [plan[2]] + [];
    var end;
    calls, end := Perform(plan, reply);
    err := ErrorOf(end);
    if end.Completed? {
      d.id := "";
    }
  }
}
