/** The instance resource: created and polled until "Created"; its Read also
    fetches the instance's network port; Delete returns any error of the
    Delete call, NotFound included. */
module Instance {
  import opened Remote
  import opened Poll
  import opened Driver

  const Kind: string := "instance"

  /** The calls of Read: the instance, then its network port. Only the first
      tolerates NotFound. */
  function ReadPlan(h: string): seq<Step> {
    [ReadStep(h), Step(GetPort(h), Abort)]
  }

  /** The calls of Create once the instance exists: wait for it, then Read it. */
  function CreatePlan(h: string): seq<Step> {
    [AwaitStep(Kind, h, CreateWait, "become ready")] + ReadPlan(h)
  }

  /** The calls of Delete. */
  function DeletePlan(h: string): seq<Step> {
    [Step(Delete(h), Abort), AwaitStep(Kind, h, DeleteWait, "delete")]
  }

  /** resourceInstanceRead: a NotFound Get clears the id and is not an error;
      any other Get error is returned; the network port is fetched only for a
      found instance, and any error of that fetch, NotFound included, is
      returned with the id kept. */
  method Read(d: ResourceData, reply: Call -> Option<Error>) returns (err: Option<Error>, calls: seq<Call>)
    modifies d
    ensures var r := Execute(ReadPlan(old(d.id)), reply);
      calls == r.issued && err == ErrorOf(r.end) && d.id == (if r.end.Absent? then "" else old(d.id))
    ensures var h, e := old(d.id), reply(Get(old(d.id)));
      && (e.Some? && IsNotFound(e.value) ==> err.None? && calls == [Get(h)] && d.id == "")
      && (e.Some? && !IsNotFound(e.value) ==> err == e && calls == [Get(h)] && d.id == h)
      && (e.None? ==> err == reply(GetPort(h)) && calls == [Get(h), GetPort(h)] && d.id == h)
    ensures d.fields == old(d.fields)
  {
    var h := d.id;
    ExecutePair(ReadPlan(h)[0], ReadPlan(h)[1], [], reply);
    assert ReadPlan(h) == [ReadPlan(h)[0], ReadPlan(h)[1]] + [];
    var end;
    calls, end := Perform(ReadPlan(h), reply);
    err := ErrorOf(end);
    if end.Absent? {
      d.id := "";
    }
  }

  /** resourceInstanceCreate: a failed Create is returned with no id;
      otherwise the instance's id is recorded before the wait, so a failed
      wait leaves it set; after the wait, Read. */
  method CreateResource(d: ResourceData, name: string, created: Outcome<Snapshot>, reply: Call -> Option<Error>)
    returns (err: Option<Error>, calls: seq<Call>)
    modifies d
    ensures created.Err? ==> err == Some(created.error) && calls == [Create(name)] && d.id == old(d.id)
    ensures created.Ok? ==>
      var h := created.value.handle;
      var r := Execute(CreatePlan(h), reply);
      calls == [Create(name)] + r.issued && err == ErrorOf(r.end) && d.id == (if r.end.Absent? then "" else h)
    ensures created.Ok? && reply(Await(created.value.handle, CreateWait)).Some? ==>
      var h := created.value.handle;
      && err == Some(Waiting(Kind, h, "become ready", reply(Await(h, CreateWait)).value))
      && calls == [Create(name), Await(h, CreateWait)] && d.id == h
    ensures d.fields == old(d.fields)
  {
    calls := [Create(name)];
    if created.Err? {
      return Some(created.error), calls;
    }
    var h := created.value.handle;
    d.id := h;
    ExecuteCons(CreatePlan(h)[0], ReadPlan(h), reply);
    var issued, end := Perform(CreatePlan(h), reply);
    calls := calls + issued;
    err := ErrorOf(end);
    if end.Absent? {
      d.id := "";
    }
  }

  /** resourceInstanceDelete: any Delete error, NotFound included, is
      returned before polling with the id kept; the id is cleared only once
      the wait for "Deleted" succeeded. */
  method DeleteResource(d: ResourceData, reply: Call -> Option<Error>)
    returns (err: Option<Error>, calls: seq<Call>)
    modifies d
    ensures var r := Execute(DeletePlan(old(d.id)), reply);
      calls == r.issued && err == ErrorOf(r.end) && d.id == (if r.end.Completed? then "" else old(d.id))
    ensures var h, e := old(d.id), reply(Delete(old(d.id)));
      && (e.Some? ==> err == e && calls == [Delete(h)] && d.id == h)
      && (e.None? ==>
            var w := reply(Await(h, DeleteWait));
            && calls == [Delete(h), Await(h, DeleteWait)]
            && (w.None? ==> err.None? && d.id == "")
            && (w.Some? ==> err == Some(Waiting(Kind, h, "delete", w.value)) && d.id == h))
    ensures d.fields == old(d.fields)
  {
    var h := d.id;
    ExecutePair(DeletePlan(h)[0], DeletePlan(h)[1], [], reply);
    assert DeletePlan(h) == [DeletePlan(h)[0], DeletePlan(h)[1]] + [];
    var end;
    calls, end := Perform(DeletePlan(h), reply);
    err := ErrorOf(end);
    if end.Completed? {
      d.id := "";
    }
  }
}
