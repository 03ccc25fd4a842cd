/** The zone resource: created, polled until "Created", then scheduled as
    desired; Delete returns any error of the Delete call, NotFound included. */
module Zone {
  import opened Remote
  import opened Poll
  import opened Driver

  const Kind: string := "zone"

  /** The calls of Update: set the schedulable flag, then Read. */
  function UpdatePlan(h: string, schedulable: bool): seq<Step> {
    [Step(Schedule(h, schedulable), Abort), ReadStep(h)]
  }

  /** The calls of Create once the zone exists: wait for it, then Update. */
  function CreatePlan(h: string, schedulable: bool): seq<Step> {
    [AwaitStep(Kind, h, CreateWait, "become ready")] + UpdatePlan(h, schedulable)
  }

  /** The calls of Delete. */
  function DeletePlan(h: string): seq<Step> {
    [Step(Delete(h), Abort), AwaitStep(Kind, h, DeleteWait, "delete")]
  }

  /** resourceZoneUpdate: ActionSchedule with the desired flag, its error
      returned as it is; then Read, whose NotFound clears the id. */
  method UpdateResource(d: ResourceData, schedulable: bool, reply: Call -> Option<Error>)
    returns (err: Option<Error>, calls: seq<Call>)
    modifies d
    ensures var r := Execute(UpdatePlan(old(d.id), schedulable), reply);
      calls == r.issued && err == ErrorOf(r.end) && d.id == (if r.end.Absent? then "" else old(d.id))
    ensures var h, e := old(d.id), reply(Schedule(old(d.id), schedulable));
      && calls[0] == Schedule(h, schedulable)
      && (e.Some? ==> err == e && calls == [Schedule(h, schedulable)] && d.id == h)
      && (e.None? ==> calls == [Schedule(h, schedulable), Get(h)])
    ensures d.fields == old(d.fields)
  {
    var h := d.id;
    ExecutePair(UpdatePlan(h, schedulable)[0], UpdatePlan(h, schedulable)[1], [], reply);
    assert UpdatePlan(h, schedulable) == [UpdatePlan(h, schedulable)[0], UpdatePlan(h, schedulable)[1]] + [];
    var end;
    calls, end := Perform(UpdatePlan(h, schedulable), reply);
    err := ErrorOf(end);
    if end.Absent? {
      d.id := "";
    }
  }

  /** resourceZoneCreate: a failed Create is returned with no id; otherwise
      the zone's id is recorded before the wait, so a failed wait leaves it
      set; only after a successful wait does Update schedule the zone. */
  method CreateResource(d: ResourceData, name: string, schedulable: bool, created: Outcome<Snapshot>,
                        reply: Call -> Option<Error>)
    returns (err: Option<Error>, calls: seq<Call>)
    modifies d
    ensures created.Err? ==> err == Some(created.error) && calls == [Create(name)] && d.id == old(d.id)
    ensures created.Ok? ==>
      var h := created.value.handle;
      var r := Execute(CreatePlan(h, schedulable), reply);
      calls == [Create(name)] + r.issued && err == ErrorOf(r.end) && d.id == (if r.end.Absent? then "" else h)
    ensures created.Ok? ==>
      var h := created.value.handle;
      var w := reply(Await(h, CreateWait));
      && (w.Some? ==>
            err == Some(Waiting(Kind, h, "become ready", w.value)) &&
            calls == [Create(name), Await(h, CreateWait)] && d.id == h)
      && (w.None? ==> |calls| >= 3 && calls[..3] == [Create(name), Await(h, CreateWait), Schedule(h, schedulable)])
    ensures d.fields == old(d.fields)
  {
    calls := [Create(name)];
    if created.Err? {
      return Some(created.error), calls;
    }
    var h := created.value.handle;
    d.id := h;
    ExecutePair(CreatePlan(h, schedulable)[0], CreatePlan(h, schedulable)[1], [ReadStep(h)], reply);
    assert CreatePlan(h, schedulable) == [CreatePlan(h, schedulable)[0], CreatePlan(h, schedulable)[1]] + [ReadStep(h)];
    var issued, end := Perform(CreatePlan(h, schedulable), reply);
    calls := calls + issued;
    err := ErrorOf(end);
    if end.Absent? {
      d.id := "";
    }
  }

  /** resourceZoneDelete: any Delete error, NotFound included, is returned
      before polling with the id kept; the id is cleared only once the wait
      for "Deleted" succeeded. */
  method DeleteResource(d: ResourceData, reply: Call -> Option<Error>)
    returns (err: Option<Error>, calls: seq<Call>)
    modifies d
    ensures var r := Execute(DeletePlan(old(d.id)), reply);
      calls == r.issued && err == ErrorOf(r.end) && d.id == (if r.end.Completed? then "" else old(d.id))
    ensures var h, e := old(d.id), reply(Delete(old(d.id)));
      && (e.Some? ==> err == e && calls == [Delete(h)] && d.id == h)
      && (e.None? ==>
            var w := reply(Await(h, DeleteWait));
            && calls == [Delete(h), Await(h, DeleteWait)]
            && (w.None? ==> err.None? && d.id == "")
            && (w.Some? ==> err == Some(Waiting(Kind, h, "delete", w.value)) && d.id == h))
    ensures d.fields == old(d.fields)
  {
    var h := d.id;
    ExecutePair(DeletePlan(h)[0], DeletePlan(h)[1], [], reply);
    assert DeletePlan(h) == [DeletePlan(h)[0], DeletePlan(h)[1]] + [];
    var end;
    calls, end := Perform(DeletePlan(h), reply);
    err := ErrorOf(end);
    if end.Completed? {
      d.id := "";
    }
  }
}
