/** The network resource: created by name and polled until "Created";
    deleted with a NotFound treated as already gone. */
module Network {
  import opened Remote
  import opened Poll
  import opened Driver

  const Kind: string := "network"

  /** The calls of Create once the network exists: wait for it, then Read it. */
  function CreatePlan(h: string): seq<Step> {
    [AwaitStep(Kind, h, CreateWait, "become ready"), ReadStep(h)]
  }

  /** The calls of Delete. */
  function DeletePlan(h: string): seq<Step> {
    [Step(Delete(h), AbsentIsDone), AwaitStep(Kind, h, DeleteWait, "delete")]
  }

  /** resourceNetworkCreate: a failed Create is returned with no id; otherwise
      the network's name becomes the id before the wait, so a failed wait
      leaves it set; after the wait, Read. */
  method CreateResource(d: ResourceData, name: string, created: Outcome<Snapshot>, reply: Call -> Option<Error>)
    returns (err: Option<Error>, calls: seq<Call>)
    modifies d
    ensures created.Err? ==> err == Some(created.error) && calls == [Create(name)] && d.id == old(d.id)
    ensures created.Ok? ==>
      var h := created.value.handle;
      var r := Execute(CreatePlan(h), reply);
      calls == [Create(name)] + r.issued && err == ErrorOf(r.end) && d.id == (if r.end.Absent? then "" else h)
    ensures created.Ok? && reply(Await(created.value.handle, CreateWait)).Some? ==>
      var h := created.value.handle;
      && err == Some(Waiting(Kind, h, "become ready", reply(Await(h, CreateWait)).value))
      && calls == [Create(name), Await(h, CreateWait)] && d.id == h
    ensures d.fields == old(d.fields)
  {
    calls := [Create(name)];
    if created.Err? {
      return Some(created.error), calls;
    }
    var h := created.value.handle;
    d.id := h;
    ExecuteCons(CreatePlan(h)[0], [ReadStep(h)], reply);
    assert CreatePlan(h) == [CreatePlan(h)[0]] + [ReadStep(h)];
    var issued, end := Perform(CreatePlan(h), reply);
    calls := calls + issued;
    err := ErrorOf(end);
    if end.Absent? {
      d.id := "";
    }
  }

  /** resourceNetworkDelete: a NotFound Delete clears the id without polling;
      any other Delete error is returned with the id kept; otherwise wait for
      "Deleted" and clear the id only once that wait succeeded. */
  method DeleteResource(d: ResourceData, reply: Call -> Option<Error>)
    returns (err: Option<Error>, calls: seq<Call>)
    modifies d
    ensures var r := Execute(DeletePlan(old(d.id)), reply);
      calls == r.issued && err == ErrorOf(r.end) && d.id == (if r.end.Failed? then old(d.id) else "")
    ensures var h, e := old(d.id), reply(Delete(old(d.id)));
      && (e.Some? && IsNotFound(e.value) ==> err.None? && calls == [Delete(h)] && d.id == "")
      && (e.Some? && !IsNotFound(e.value) ==> err == e && calls == [Delete(h)] && d.id == h)
      && (e.None? ==>
            var w := reply(Await(h, DeleteWait));
            && calls == [Delete(h), Await(h, DeleteWait)]
            && (w.None? ==> err.None? && d.id == "")
            && (w.Some? ==> err == Some(Waiting(Kind, h, "delete", w.value)) && d.id == h))
    ensures d.fields == old(d.fields)
  {
    var h := d.id;
    ExecutePair(DeletePlan(h)[0], DeletePlan(h)[1], [], reply);
    assert DeletePlan(h) == [DeletePlan(h)[0], DeletePlan(h)[1]] + [];
    var end;
    calls, end := Perform(DeletePlan(h), reply);
    err := ErrorOf(end);
    if !end.Failed? {
      d.id := "";
    }
  }
}
