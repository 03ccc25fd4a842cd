/** The image member resource: a project allowed to use an image,
    identified by "image/project". */
module ImageMember {
  import opened Remote
  import opened Driver
  import opened CompositeId

  const ImageField: string := "image_id"
  const ProjectField: string := "project_id"

  /** Whether `project` is among the listed members, by a search loop that
      returns at the first hit. */
  method IsListed(members: seq<string>, project: string) returns (found: bool)
    ensures found <==> project in members
  {
    var i := 0;
    while i < |members|
      invariant 0 <= i <= |members|
      invariant project !in members[..i]
    {
      if members[i] == project {
        return true;
      }
      assert members[..i + 1] == members[..i] + [members[i]];
      i := i + 1;
    }
    assert members[..i] == members;
    return false;
  }

  /** resourceImageMemberRead: split the id (a malformed id fails before any
      call) and list the image's members; a NotFound list clears the id
      without error, another error is returned; otherwise the id is kept
      exactly when the project is listed, and both parts are then recorded. */
  method Read(d: ResourceData, listed: Outcome<seq<string>>) returns (err: Option<Error>, calls: seq<Call>)
    modifies d
    ensures Pair(old(d.id)).Err? ==>
      err == Some(Pair(old(d.id)).error) && calls == [] && d.id == old(d.id) && d.fields == old(d.fields)
    ensures Pair(old(d.id)).Ok? ==>
      var (image, project) := Pair(old(d.id)).value;
      && calls == [MemberList(image)]
      && (listed.Err? && IsNotFound(listed.error) ==> err.None? && d.id == "" && d.fields == old(d.fields))
      && (listed.Err? && !IsNotFound(listed.error) ==>
            err == Some(listed.error) && d.id == old(d.id) && d.fields == old(d.fields))
      && (listed.Ok? && project in listed.value ==>
            err.None? && d.id == old(d.id) &&
            d.fields == old(d.fields)[ImageField := Str(image)][ProjectField := Str(project)])
      && (listed.Ok? && project !in listed.value ==> err.None? && d.id == "" && d.fields == old(d.fields))
  {
    var address := Pair(d.id);
    if address.Err? {
      return Some(address.error), [];
    }
    var (image, project) := address.value;
    calls := [MemberList(image)];
    if listed.Err? {
      if IsNotFound(listed.error) {
        d.id := "";
        return None, calls;
      }
      return Some(listed.error), calls;
    }
    var found := IsListed(listed.value, project);
    if found {
      d.fields := d.fields[ImageField := Str(image)][ProjectField := Str(project)];
      return None, calls;
    }
    d.id := "";
    err := None;
  }

  /** resourceImageMemberCreate: MemberAdd; its error is returned with no id
      set; otherwise the id becomes "image/project" and Read runs, keeping
      it when the list that follows shows the project, clearing it when the
      list is NotFound or lacks the project, and returning any other list
      error with the id kept. */
  method Create(d: ResourceData, image: string, project: string, reply: Call -> Option<Error>, listed: Outcome<seq<string>>)
    returns (err: Option<Error>, calls: seq<Call>)
    modifies d
    ensures reply(MemberAdd(image, project)).Some? ==>
      err == reply(MemberAdd(image, project)) && calls == [MemberAdd(image, project)] &&
      d.id == old(d.id) && d.fields == old(d.fields)
    ensures reply(MemberAdd(image, project)).None? && Separator !in image && Separator !in project ==>
      calls == [MemberAdd(image, project), MemberList(image)] &&
      (listed.Ok? && project in listed.value ==> err.None? && d.id == Join([image, project])) &&
      (listed.Ok? && project !in listed.value ==> err.None? && d.id == "") &&
      (listed.Err? && IsNotFound(listed.error) ==> err.None? && d.id == "") &&
      (listed.Err? && !IsNotFound(listed.error) ==> err == Some(listed.error) && d.id == Join([image, project]))
  {
    calls := [MemberAdd(image, project)];
    err := reply(MemberAdd(image, project));
    if err.Some? {
      return;
    }
    d.id := Join([image, project]);
    if Separator !in image && Separator !in project {
      PairOfJoin(image, project);
    }
    var readCalls;
    err, readCalls := Read(d, listed);
    calls := calls + readCalls;
  }

  /** resourceImageMemberDelete: split the id, MemberRemove; its error is
      returned with the id kept; otherwise the id is cleared. */
  method Delete(d: ResourceData, reply: Call -> Option<Error>) returns (err: Option<Error>, calls: seq<Call>)
    modifies d
    ensures Pair(old(d.id)).Err? ==> err == Some(Pair(old(d.id)).error) && calls == [] && d.id == old(d.id)
    ensures Pair(old(d.id)).Ok? ==>
      var (image, project) := Pair(old(d.id)).value;
      && calls == [MemberRemove(image, project)]
      && err == reply(MemberRemove(image, project))
      && d.id == (if err.Some? then old(d.id) else "")
    ensures d.fields == old(d.fields)
  {
    var address := Pair(d.id);
    if address.Err? {
      return Some(address.error), [];
    }
    var (image, project) := address.value;
    calls := [MemberRemove(image, project)];
    err := reply(MemberRemove(image, project));
    if err.Some? {
      return;
    }
    d.id := "";
  }
}
