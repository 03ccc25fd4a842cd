# sandwich Terraform provider: a Dafny model of its core

The sandwich provider manages the resources of the Sandwich Cloud
control plane from Terraform. Each resource kind has Create, Read, Update and
Delete hooks. These hooks issue calls to the control-plane client, poll
state-change waits, and set or clear the Terraform record id. The model
covers four parts of that behaviour:

- **IAM policy editing** (`iam.dfy` and the six policy resources). A policy
  is an ordered list of bindings `(role, members)`. `iamReadModifyWrite`
  does Get, then one modify closure, then Set. Each closure is a method of
  class `Iam.Policy` that updates the binding list in place:
  - upsert a binding by role;
  - remove a binding by role;
  - add a member (to the last binding for the role);
  - remove a member (from the first binding for the role);
  - replace every binding.

  Each method is proved against a specification function on the list.
  Lemmas then state what the edits promise when a Read follows them.
  `Iam.PolicyStore` is the policy API: one document per scope, with Get and
  Set that may fail.
- **Composite ids** (`composite_id.dfy`). Ids are joined with `/` on create
  and split on `/` by index on read and delete. A malformed id makes the
  source panic; the model turns that into an error value.
- **Remote-state classification** (`poll.dfy`, `volume.dfy`, `project.dfy`).
  A refresh function maps a Get outcome to a state label. The model also
  shows how those labels stand against the fixed pending and target label
  sets of every wait.
- **Lifecycle sequencing** (`driver.dfy` and one file per resource kind).
  A hook is a plan of steps. Each step is a remote call together with the
  way the hook treats that call's error. `Driver.Execute` runs a plan and
  stops at the first error the hook does not tolerate. The hooks themselves
  are methods on `Driver.ResourceData`, the Terraform record. For the hooks
  built on a plan, the contract ties the issued calls, the returned error and
  the id to what `Execute` yields for that plan. Where a hook is not built on
  a plan, the contract names the calls, the error and the id case by case. The volume's Update builds its
  plan from the observed and the desired volume, in the order detach, grow,
  attach.

The control-plane client is not part of the model. Its answers are inputs of
the operations:
- a typed `Outcome` for calls that return data (Get, Create, MemberList);
- a function `reply: Call -> Option<Error>` for calls that only succeed or
  fail, with `Await(handle, wait)` standing for one `WaitForState`;
- two failure parameters for the policy store's Get and Set.

A NotFound is an API error with status 404.

## Model

| member | source | states |
|---|---|---|
| `Poll.Classify` | sandwich/resource_sandwich_volume.go:276-304 | Every refresh function has this shape: a found resource yields the chosen field with no error; NotFound yields "Deleted" with no error; any other error yields "" together with that error. |
| `Poll.StateRefresh` | sandwich/resource_sandwich_network.go:179-192 | The state classifier. The same function is written out in the instance (216-229), zone (175-188), region (158-171), image (141-154), system role (154-167), service account (122-135) and volume (276-289) files. It maps a found resource to its state, NotFound to "Deleted", and another error to "" plus the error. |
| `Poll.StateRefreshAgainstWaits` | sandwich/resource_sandwich_instance.go:124-136 | The create wait ends exactly on "Created" and pends exactly on ToCreate/Creating. The delete wait ends exactly on "Deleted" or NotFound and pends on ToDelete/Deleting. NotFound fails the create wait. Any other error fails both waits. |
| `Poll.Trichotomy` | sandwich/resource_sandwich_network.go:99-105 | When a wait's pending and target sets are disjoint, each refresh result either ends the wait, keeps it polling, or fails it, and exactly one of the three holds. |
| `Poll.WaitsWellFormed` | sandwich/resource_sandwich_volume.go:173-175 | Every wait's pending and target sets are disjoint. "Deleted" is a target of both delete waits and in neither create set. "" is the target of every task wait. |
| `Volume.TaskRefresh` | sandwich/resource_sandwich_volume.go:291-304 | Task classifier: a found volume yields its task ("" when idle), NotFound yields "Deleted", and another error yields "" plus the error. |
| `Volume.TaskRefreshAgainstWaits` | sandwich/resource_sandwich_volume.go:173-175 | A detach, grow or attach wait ends exactly when the volume is found with no task in flight. Any Get error fails it, NotFound included. |
| `Volume.PlanDetachesIff` | sandwich/resource_sandwich_volume.go:163-171 | Update plans a detach iff the observed attachment differs from the wanted one. |
| `Volume.PlanGrowsIff` | sandwich/resource_sandwich_volume.go:187-191 | Update plans a grow iff the observed size differs from the wanted size. A shrink is planned too. |
| `Volume.PlanAttachesIff` | sandwich/resource_sandwich_volume.go:206-210 | Update plans an attach iff an instance is wanted, even when the volume is already attached to it (no detach is planned in that case). |
| `Volume.PlanOrder` | sandwich/resource_sandwich_volume.go:163-225 | The plan's phases never go back (detach, then grow, then attach, then Read). Each action is directly followed by its own wait, and the last step is the Get of Read. |
| `Volume.UpdateClearsIdOnlyWhenGone` | sandwich/resource_sandwich_volume.go:152-161 | Update only ever changes the id to clear it. It does so only when the volume is reported gone, either by its first Get or, after every action passed, by the Get of the final Read. Neither case returns an error. |
| `Volume.OnlyReadToleratesAbsence` | sandwich/resource_sandwich_volume.go:163-225 | The Get of the final Read is the only step of the update plan that takes NotFound as "already gone". |
| `Volume.DetachTolerance` | sandwich/resource_sandwich_volume.go:163-171 | A detach error stops the hook iff it is an API error whose status is not 409. A 409, or an error that is not an API error, falls through to the wait. |
| `Volume.UpdateResource` | sandwich/resource_sandwich_volume.go:141-226 | An unparseable attached_to fails before any call. A NotFound Get clears the id and issues nothing more. Otherwise the plan runs until its first failure, and the issued calls, error and id match `UpdateEffect`. |
| `Volume.Converge` | sandwich/resource_sandwich_volume.go:163-185 | The detach stage (only an API error other than 409 stops it) and everything after it run exactly as `Execute` runs the update plan. |
| `Volume.GrowStage` | sandwich/resource_sandwich_volume.go:187-204 | The grow stage and what follows it run exactly as `Execute` runs that suffix of the plan. |
| `Volume.AttachStage` | sandwich/resource_sandwich_volume.go:206-225 | The attach stage and the final Read run exactly as `Execute` runs that suffix of the plan. |
| `Volume.DeleteResource` | sandwich/resource_sandwich_volume.go:228-274 | Detach (409 tolerated), wait, Delete, wait. The first failure is returned, and the id is cleared only when all four passed. |
| `Volume.DeleteCompletesIff` | sandwich/resource_sandwich_volume.go:232-273 | Delete never ends as "already gone". It completes iff all four steps pass, issuing all four calls. A Delete error after a passed detach phase is returned after exactly three calls. |
| `Volume.CreateResource` | sandwich/resource_sandwich_volume.go:61-116 | Either Create, or Get the source and Clone it. A failure there sets no id. The id is set before the create wait, so a failed wait leaves it set. After the wait, Update runs as `UpdateEffect` says. |
| `Driver.Execute` | sandwich/resource_sandwich_volume.go:163-225 | A run issues at most as many calls as the plan has steps, and exactly as many when it completes. |
| `Driver.ExecuteAppend` | sandwich/resource_sandwich_volume.go:163-225 | Running two plans in sequence is running their concatenation: the second starts only if the first completed. |
| `Driver.ExecuteSpec` | sandwich/resource_sandwich_volume.go:163-225 | A run issues the plan's calls in order, up to the first that does not pass, and ends with that call's outcome. It completes iff every step passes. |
| `Driver.FailureIsLast` | sandwich/resource_sandwich_volume.go:163-225 | A call whose error is not tolerated is the last call issued, and the run does not complete. |
| `Driver.AbsentEnd` | sandwich/resource_sandwich_network.go:151-157 | A run ends as "already gone" only at its last issued call, which treats NotFound as done and was answered NotFound. |
| `Driver.Perform` | sandwich/resource_sandwich_zone.go:137-147 | The step-by-step hook body issues exactly the calls `Execute` issues and ends the same way. |
| `Driver.ReadResource` | sandwich/resource_sandwich_network.go:116-145 | A Read's NotFound Get clears the id and is not an error. Any other error is returned with the id kept. |
| `Network.CreateResource` | sandwich/resource_sandwich_network.go:75-114 | A failed Create sets no id. The name becomes the id before the wait, so a failed wait returns the wrapped error with the id set. After the wait comes Read. |
| `Network.DeleteResource` | sandwich/resource_sandwich_network.go:147-177 | A NotFound Delete clears the id with no polling. Any other Delete error is returned with the id kept. Otherwise the id is cleared only after the delete wait succeeds. |
| `Instance.Read` | sandwich/resource_sandwich_instance.go:142-188 | A NotFound Get clears the id. The network port is fetched only for a found instance. Any error of that fetch, NotFound included, is returned with the id kept. |
| `Instance.CreateResource` | sandwich/resource_sandwich_instance.go:94-140 | A failed Create sets no id. The id is set before the create wait, so a failed wait leaves it set. After the wait comes Read. |
| `Instance.DeleteResource` | sandwich/resource_sandwich_instance.go:190-214 | Any Delete error, NotFound included, is returned before polling. The id is cleared only after the delete wait succeeds. |
| `Zone.UpdateResource` | sandwich/resource_sandwich_zone.go:137-147 | ActionSchedule with the desired flag comes first, and its error is returned before any Read. |
| `Zone.CreateResource` | sandwich/resource_sandwich_zone.go:75-109 | The id is set before the create wait. ActionSchedule with the desired flag is issued only after a successful wait. |
| `Zone.DeleteResource` | sandwich/resource_sandwich_zone.go:149-173 | Any Delete error, NotFound included, is returned before polling. The id is cleared only after the delete wait succeeds. |
| `Region.Read` | sandwich/resource_sandwich_region.go:91-113 | A NotFound clears the id. A found region's schedulable flag is copied into the record. |
| `Region.UpdateResource` | sandwich/resource_sandwich_region.go:115-125 | ActionSchedule with the desired flag, then Read, which records the flag the region reports. A schedule error is returned before any Get. |
| `Region.CreateResource` | sandwich/resource_sandwich_region.go:58-89 | Create, then the id, then the wait, then Update. After a passed wait and schedule, the calls are Create, wait, ActionSchedule and Get. A found region's flag is recorded. A NotFound Get clears the id with no error. Another Get error is returned with the id kept. |
| `Region.DeleteResource` | sandwich/resource_sandwich_region.go:127-156 | ActionSchedule(false) comes first, and its failure returns before Delete is issued. A Delete error is returned before polling. The id is cleared only after the wait succeeds. |
| `Image.CreateResource` | sandwich/resource_sandwich_image.go:51-86 | The project is taken as `getProject` finds it (the undeclared "project" attribute, then the configured project). It is recorded as project_name before Create. A failed lookup issues no call. A failed Create sets no id. The image name becomes the id before the wait, and Read follows. |
| `Image.DeleteResource` | sandwich/resource_sandwich_image.go:109-139 | A NotFound Delete clears the id with no polling. Any other error keeps the id. The id is cleared only after the delete wait succeeds. |
| `SystemRole.PoliciesUnreadable` | sandwich/resource_sandwich_system_role.go:27-39 | The schema declares only name and permissions. So for every role record, reading the list "policies" fails with the panic error, while reading "permissions" succeeds. |
| `SystemRole.UpdateResource` | sandwich/resource_sandwich_system_role.go:99-120 | As written: the read of the undeclared "policies" list panics. No call is issued, in particular no role Update, and the result is the panic error. |
| `SystemRole.UpdatePermissions` | sandwich/resource_sandwich_system_role.go:99-120 | As intended: the role Update carries the record's permissions. A NotFound from it clears the id and returns nil with no Read. Other errors are returned with the id kept. Otherwise Read follows. |
| `SystemRole.CreateResource` | sandwich/resource_sandwich_system_role.go:44-77 | A failed Create is returned with no id. Otherwise the role name becomes the id before the wait, and the calls are exactly Create and the wait. A failed wait returns the wrapped error. A passed wait ends in Update's panic error. The id stays set in both cases. |
| `SystemRole.DeleteResource` | sandwich/resource_sandwich_system_role.go:122-152 | A NotFound Delete clears the id with no polling. Otherwise the id is cleared only after the delete wait succeeds. |
| `SystemServiceAccount.CreateResource` | sandwich/resource_sandwich_system_serivce_account.go:39-68 | The email from the Create reply and the id are both recorded before the wait, and stay set when the wait fails. |
| `SystemServiceAccount.DeleteResource` | sandwich/resource_sandwich_system_serivce_account.go:90-120 | A NotFound Delete clears the id with no polling. Otherwise the id is cleared only after the delete wait succeeds. |
| `Project.Refresh` | sandwich/resource_sandwich_project.go:101-114 | A found project yields the constant "Created", whatever its state. NotFound yields "Deleted". Another error yields "" plus the error. |
| `Project.RefreshAgainstDeleteWait` | sandwich/resource_sandwich_project.go:84-95 | Every error-free label is pending or target. A found project keeps the wait polling, a missing one ends it, and only another error fails it. |
| `Project.CreateResource` | sandwich/resource_sandwich_project.go:35-47 | There is no wait: the id is set right after Create succeeds, and then Read runs. |
| `Project.DeleteResource` | sandwich/resource_sandwich_project.go:69-99 | A NotFound Delete clears the id with no polling. Otherwise the id is cleared only after the Created→Deleted wait succeeds. |
| `Iam.FirstIndex` | sandwich/resource_sandwich_system_policy_binding.go:79-86 | The index of the first binding for the role, or -1 when no binding has it. |
| `Iam.LastIndex` | sandwich/resource_sandwich_system_policy_member.go:52-57 | The index of the last binding for the role, or -1 when no binding has it. |
| `Iam.IndexOf` | sandwich/resource_sandwich_system_policy_member.go:116-121 | The index of the first occurrence of the member, or -1. |
| `Iam.Upserted` | sandwich/resource_sandwich_system_policy_binding.go:96-100 | The first binding for the key is replaced. With none, exactly one binding is appended at the end. Every other binding keeps its place. |
| `Iam.Removed` | sandwich/resource_sandwich_system_policy_binding.go:114-119 | Only the first binding for the role is dropped, and the others keep their order. An absent role leaves the policy unchanged. |
| `Iam.MemberAdded` | sandwich/resource_sandwich_system_policy_member.go:52-64 | The member is appended to the last binding for the role, with no duplicate check. With no binding, (role, [member]) is appended at the end. |
| `Iam.WithoutFirst` | sandwich/resource_sandwich_system_policy_member.go:116-121 | An absent member leaves the list unchanged. Otherwise exactly one element is removed. |
| `Iam.MemberRemoved` | sandwich/resource_sandwich_system_policy_member.go:113-126 | Only the first binding for the role changes, losing the member's first occurrence, and it stays even when empty. |
| `Iam.CopyMembers` | sandwich/resource_sandwich_system_policy_binding.go:88-95 | The members list built by appends equals the desired list, in order. Empty stays empty. |
| `Iam.CopyBindings` | sandwich/resource_sandwich_system_policy.go:86-100 | The new binding list equals the desired one, each binding with its role and its members in order. |
| `Iam.FindMember` | sandwich/resource_sandwich_system_policy_member.go:90-95 | The search with break finds the first occurrence, and -1 iff the member is absent. |
| `Iam.Policy.FindFirst` | sandwich/resource_sandwich_system_policy_binding.go:59-65 | The search with break finds the first binding for the role, and -1 iff Read reports none. |
| `Iam.Policy.FindMemberOf` | sandwich/resource_sandwich_system_policy_member.go:86-102 | Only the first binding for the role is searched. The result is not -1 iff that binding holds the member. |
| `Iam.Policy.Upsert` | sandwich/resource_sandwich_system_policy_binding.go:78-101 | The binding list becomes `Upserted` of the old list. |
| `Iam.Policy.Unbind` | sandwich/resource_sandwich_system_policy_binding.go:113-120 | The binding list becomes `Removed` of the old list. |
| `Iam.Policy.AddMember` | sandwich/resource_sandwich_system_policy_member.go:46-65 | The search loop without break lands on the last binding for the role. The list becomes `MemberAdded` of the old list. |
| `Iam.Policy.RemoveMember` | sandwich/resource_sandwich_system_policy_member.go:113-126 | The binding list becomes `MemberRemoved` of the old list. |
| `Iam.Policy.ReplaceAll` | sandwich/resource_sandwich_project_policy.go:93-107 | The bindings become exactly the desired list, and the previous ones are discarded. |
| `Iam.Policy.Apply` | sandwich/iam.go:21 | The modify closure runs once on the fetched policy. |
| `Iam.PolicyStore.Get` | sandwich/iam.go:17-20 | A failure is returned. Otherwise the result is a fresh copy of the scope's policy. |
| `Iam.PolicyStore.Set` | sandwich/iam.go:22-25 | The error is returned unchanged. A failed Set stores nothing; a successful one stores the given bindings. |
| `Iam.ReadModifyWrite` | sandwich/iam.go:13-27 | A Get error is returned with nothing changed and no modify or Set. A Set error is returned unchanged with nothing stored. On success the stored policy is the edited old one and the result is nil. |
| `Iam.ReadBinding` | sandwich/resource_sandwich_system_policy_binding.go:47-72 | A Get error is returned. Otherwise the result is the members of the first binding for the role, or none. |
| `Iam.ReadMember` | sandwich/resource_sandwich_project_policy_member.go:94-116 | A Get error is returned. Otherwise the result is whether the first binding for the role holds the member. |
| `Iam.ReadPolicy` | sandwich/resource_sandwich_system_policy.go:59-79 | A Get error is returned. Otherwise the result is every binding, in order, with its role and members. |
| `Iam.FirstIsLast` | sandwich/resource_sandwich_system_policy_member.go:52-57 | With one binding per role, add-member's last match is Read's first match. |
| `Iam.UpsertThenRead` | sandwich/resource_sandwich_system_policy_binding.go:96-106 | A Read right after an upsert reports exactly the members written. |
| `Iam.UpsertKeepsOtherRoles` | sandwich/resource_sandwich_system_policy_binding.go:96-100 | An upsert leaves what a Read of any other role reports unchanged. |
| `Iam.UpsertIdempotent` | sandwich/resource_sandwich_system_policy_binding.go:96-100 | Upserting the same binding twice equals upserting it once. |
| `Iam.RemoveUndoesInsert` | sandwich/resource_sandwich_system_policy_binding.go:114-119 | Removing a role that an upsert just appended restores the policy. |
| `Iam.RemoveClearsRole` | sandwich/resource_sandwich_system_policy_binding.go:114-119 | With one binding per role, a removed role reads as absent. |
| `Iam.RemoveLeavesDuplicateRole` | sandwich/resource_sandwich_system_policy_binding.go:114-119 | With two bindings for a role, the second survives the removal and Read reports its members. |
| `Iam.EditKeepsUniqueRoles` | sandwich/iam.go:21-22 | Every edit keeps one binding per role. For an upsert this needs its binding's role to be its key; for a replacement it needs the new list to have one binding per role. |
| `Iam.AddThenHas` | sandwich/resource_sandwich_system_policy_member.go:52-71 | With one binding per role, a member read right after being added is found. |
| `Iam.AddMissesDuplicateRole` | sandwich/resource_sandwich_system_policy_member.go:52-57 | With two bindings for a role, add-member writes to the second while Read looks at the first, so the added member is not seen. |
| `Iam.WithoutFirstCount` | sandwich/resource_sandwich_system_policy_member.go:116-121 | Removing the first occurrence removes exactly one copy (multiset difference). |
| `Iam.AddCountsOnce` | sandwich/resource_sandwich_system_policy_member.go:58 | Add-member does not check for duplicates: the member's count in the role's binding goes up by exactly one. |
| `Iam.RemoveThenHas` | sandwich/resource_sandwich_system_policy_member.go:113-126 | After remove-member the member still reads as present iff the role's first binding held it at least twice. |
| `Iam.AddThenRemove` | sandwich/resource_sandwich_system_policy_member.go:52-64 | Adding a new member and removing it restores the policy. When the role had no binding, an empty binding is left behind. |
| `Iam.AddThenRemoveNew` | sandwich/resource_sandwich_system_policy_member.go:60-61 | With no binding for the role, add then remove leaves (role, []) appended. |
| `Iam.AddThenRemoveExisting` | sandwich/resource_sandwich_system_policy_member.go:62-63 | With a single binding lacking the member, add then remove restores the policy. |
| `Iam.AppendedThenRemoved` | sandwich/resource_sandwich_system_policy_member.go:118 | Removing the first occurrence of a member just appended to a list without it restores the list. |
| `SystemPolicyBinding.Read` | sandwich/resource_sandwich_system_policy_binding.go:47-72 | The members of the first binding for the id's role are recorded. With none, the id is cleared. A Get error changes nothing. |
| `SystemPolicyBinding.Update` | sandwich/resource_sandwich_system_policy_binding.go:74-107 | The policy becomes the upsert of (role, members) under the id. A failed Get or Set leaves it unchanged. When the role is the id, Read then records exactly those members. |
| `SystemPolicyBinding.Create` | sandwich/resource_sandwich_system_policy_binding.go:41-45 | The id is the role. It stays set when Get, Set or the final Read fails, and that error is returned with the members unrecorded. On success the record holds the members written. |
| `SystemPolicyBinding.Delete` | sandwich/resource_sandwich_system_policy_binding.go:109-128 | The first binding for the id's role is removed. The id is cleared only when the policy was written. |
| `ProjectPolicyBinding.Address` | sandwich/resource_sandwich_project_policy_binding.go:62-63 | Splitting the id into project and role fails exactly when it has no separator. |
| `ProjectPolicyBinding.AddressOfJoin` | sandwich/resource_sandwich_project_policy_binding.go:56-63 | The id "project/role" splits back into both parts when neither contains "/". |
| `ProjectPolicyBinding.Read` | sandwich/resource_sandwich_project_policy_binding.go:60-86 | A malformed id fails before any call. The first binding's members are recorded, or the id is cleared iff no binding has the role. |
| `ProjectPolicyBinding.Update` | sandwich/resource_sandwich_project_policy_binding.go:88-123 | The project and role come from the id. The policy becomes the upsert, and the Read records exactly the members written. |
| `ProjectPolicyBinding.Create` | sandwich/resource_sandwich_project_policy_binding.go:48-58 | The project is taken as `getProject` finds it and recorded. The id is "project/role", and the update addresses the project and role that id splits into, which are the given ones when neither contains "/". A Get or Set failure stores nothing. A failure of the final Read is returned. Otherwise the record holds the members written. |
| `ProjectPolicyBinding.Delete` | sandwich/resource_sandwich_project_policy_binding.go:125-146 | Only the first binding with the role is removed from the id's project. The id is cleared only when the policy was written. |
| `CompositeId.Pair` | sandwich/resource_sandwich_system_policy_member.go:83-84 | Reading the two parts of an id ("role/member" here, "image/project" for image members at resource_sandwich_image_member.go:56-58) fails exactly when the id has no separator, and otherwise yields its first two pieces. |
| `CompositeId.PairOfJoin` | sandwich/resource_sandwich_system_policy_member.go:70-84 | An id joined from two parts with no "/" in either splits back into those two parts. |
| `SystemPolicyMember.Read` | sandwich/resource_sandwich_system_policy_member.go:74-104 | The Get comes before the split. The id is kept iff the member is in the first binding for the role. |
| `SystemPolicyMember.Create` | sandwich/resource_sandwich_system_policy_member.go:39-72 | The policy becomes `MemberAdded`. A failure sets no id. With one binding per role and no "/", the Read keeps the id "role/member". |
| `SystemPolicyMember.Delete` | sandwich/resource_sandwich_system_policy_member.go:106-133 | The first occurrence is removed from the first binding for the role. The id is cleared only when the policy was written. |
| `ProjectPolicyMember.Address` | sandwich/resource_sandwich_project_policy_member.go:87-89 | Splitting the id into project, role and member fails exactly when it has fewer than two separators. |
| `ProjectPolicyMember.AddressOfJoin` | sandwich/resource_sandwich_project_policy_member.go:82-89 | "project/role/member" splits into indices 0, 1 and 2 that recover the parts when none contains "/". |
| `ProjectPolicyMember.Read` | sandwich/resource_sandwich_project_policy_member.go:86-117 | The split comes first. The id is kept iff the member is in the first binding for the role. |
| `ProjectPolicyMember.Create` | sandwich/resource_sandwich_project_policy_member.go:45-84 | The project is taken as `getProject` finds it and recorded. The policy becomes `MemberAdded`. With one binding per role and no "/", the id "project/role/member" is kept by Read. |
| `ProjectPolicyMember.Delete` | sandwich/resource_sandwich_project_policy_member.go:119-147 | The first occurrence is removed from the first matching binding, and other bindings are untouched. The id is cleared only when the policy was written. |
| `SystemPolicy.Read` | sandwich/resource_sandwich_system_policy.go:59-79 | Every remote binding is recorded, in order, with its role and members. |
| `SystemPolicy.Update` | sandwich/resource_sandwich_system_policy.go:81-107 | The system policy becomes exactly the desired list, and Read records it. |
| `SystemPolicy.Create` | sandwich/resource_sandwich_system_policy.go:50-57 | The id is the generated UUID (a generation failure is returned), then Update runs. |
| `SystemPolicy.Delete` | sandwich/resource_sandwich_system_policy.go:109-112 | There is no remote call: only the id is cleared. |
| `ProjectPolicy.Read` | sandwich/resource_sandwich_project_policy.go:66-86 | The policy of the project the id names is recorded, in order. |
| `ProjectPolicy.Update` | sandwich/resource_sandwich_project_policy.go:88-114 | That project's policy becomes exactly the desired list. |
| `ProjectPolicy.Create` | sandwich/resource_sandwich_project_policy.go:55-64 | The project is taken as `getProject` finds it and recorded as project_name. The id is the project name, and that project's policy becomes the desired list. A Read failure is returned; otherwise the record holds the list. |
| `ProjectPolicy.Delete` | sandwich/resource_sandwich_project_policy.go:116-119 | There is no remote call: only the id is cleared. |
| `ImageMember.IsListed` | sandwich/resource_sandwich_image_member.go:71-77 | The search with early return finds the project iff it is listed. |
| `ImageMember.Read` | sandwich/resource_sandwich_image_member.go:53-81 | A NotFound list clears the id with no error, and other errors are returned. The id is kept iff the project is listed. |
| `ImageMember.Create` | sandwich/resource_sandwich_image_member.go:38-51 | A failed MemberAdd is returned with no id set. Otherwise the id is "image/project" and Read follows. The id is kept when the project is listed. It is cleared with no error when the list is NotFound or lacks the project. Another list error is returned with the id set. |
| `ImageMember.Delete` | sandwich/resource_sandwich_image_member.go:83-97 | A failed MemberRemove is returned with the id kept. Otherwise the id is cleared. |
| `CompositeId.Join` | sandwich/resource_sandwich_project_policy_member.go:82 | The parts are joined with "/" between them. |
| `CompositeId.Split` | sandwich/resource_sandwich_project_policy_member.go:87-89 | There is at least one piece, no piece contains "/", and there is one more piece than there are separators. |
| `CompositeId.Parts` | sandwich/resource_sandwich_project_policy_member.go:87-89 | Indexing parts 0..n-1 succeeds iff the id has at least n pieces. Otherwise the result is the out-of-range error where the source panics. |
| `CompositeId.SplitJoin` | sandwich/resource_sandwich_project_policy_binding.go:56-63 | Splitting a joined id recovers the parts when none contains "/". |
| `CompositeId.JoinSplit` | sandwich/resource_sandwich_project_policy_binding.go:62-63 | Joining the pieces of a split gives back the id. |
| `CompositeId.SlashInPartBreaksSplit` | sandwich/resource_sandwich_system_policy_member.go:70 | A part containing "/" breaks the round trip: "a/b" and "c" come back as three parts. |
| `CompositeId.PartsOfJoin` | sandwich/resource_sandwich_project_policy_member.go:82-89 | The resources' part indexing recovers every part of a slash-free join, and asking for one more part fails. |
| `CompositeId.JoinKeepsParts` | sandwich/resource_sandwich_project_policy_binding.go:56-63 | A joined id always has enough pieces for the resources' indexing, whatever the parts contain. |
| `Utils.GetList` | sandwich/resource_sandwich_system_role.go:104 | A list attribute reads as the panic error exactly when the schema does not declare it. A declared one reads as its list, or as the empty list when unset. |
| `Utils.GetOk` | sandwich/utils.go:14 | The value is reported only when the attribute is present and set to a non-empty string. |
| `Utils.GetProjectFromSchema` | sandwich/utils.go:13-22 | A set field with a non-empty name wins. Otherwise a non-empty configured project is used. Otherwise the error names the field. |
| `Utils.GetProject` | sandwich/utils.go:9-11 | As written, the lookup delegates with the attribute "project". A set "project" wins; otherwise the configured project is used, or the error names "project". The project-scoped Create hooks use this lookup. |
| `Utils.GetProjectName` | sandwich/utils.go:13-22 | The corrected lookup delegates with "project_name" instead. A set project_name wins; otherwise the configured project is used, or the error names project_name. |
| `Utils.GetProjectIgnoresRecord` | sandwich/utils.go:9-11 | As written, a record without a "project" attribute yields the configured project or the error, whatever else it holds. |
| `Utils.ProjectNameIgnored` | sandwich/utils.go:9-11 | A concrete record with project_name "p1" gets the configured "p0". With no configured project it fails. |
| `Utils.GetProjectNamePrecedence` | sandwich/utils.go:13-22 | The corrected lookup: a set project_name wins, an unset one falls back to the configured project, and the error names project_name. |

## Left out

- The waiting engine (`StateChangeConf.WaitForState`), with its delay, minimum poll interval and timeout, belongs to the Terraform library. Each wait is one call `Await(handle, wait)` whose outcome is an input. Only the label sets and the classifiers are modelled.
- The IAM mutex (`iamMutexKV`) and the choice of its key, including the `"system"` key that the project binding Delete uses. They only serialise concurrent runs.
- `d.Set` plumbing of attributes the model does not track: names, region/zone/network ids, disk, tags, keypairs, permissions, file names. The record keeps only the id and the attributes that a modelled property is about: members, binding, project_name, image_id/project_id, schedulable and email.
- `d.Partial` toggling, which is Terraform engine state.
- The volume's handle: Update grows `d.Id()` but detaches and attaches `volume.ID`. The model assumes the two are equal.
- Instance Read fetches the port named by the instance's `NetworkPortID`. The model names that call `GetPort(instance)`, because the port id comes from a reply it does not track.
- Image and image-member calls are issued by a client scoped to the project. The project scope is not part of the modelled calls.
- The role Read records the permissions a Get reports. That copy is not modelled; Read is the shared Get step with its NotFound handling.
- `uuid.FromString` and `uuid.GenerateUUID` are inputs (`parsed`, `generated`), and `net.ParseIP` is not modelled.
- The snapshot that each refresh function returns beside the label is not modelled.
- The provider setup, the schema declarations and the resources outside this core: keypair, flavor, project quota, project member, project role, project service account, and the data sources.
- `SystemPolicyMember.Create`: when role or member contains "/", only the error and the policy edit are stated.
- `ProjectPolicyMember.Create`: the id being kept is stated only under one binding per role and no "/" in the parts.
- `ImageMember.Create`: the final Read is stated only when neither image nor project contains "/".
- `Zone.CreateResource` states the later calls through `Execute`, and spells out only the first three.

## Findings

| source | as written | input that shows it | evidently intended | confidence | as-written member | corrected member |
|---|---|---|---|---|---|---|
| sandwich/resource_sandwich_system_role.go:104 | the role Update reads the list `"policies"`, which the schema (lines 27-39) does not declare. `d.Get` yields nil, and the `[]interface{}` assertion panics before `roleClient.Update`, so the role Update hook, and Create after a passed wait, never send a permission change | any role record, e.g. name "r" and permissions ["p"]: Update issues no call and fails; Create issues only Create and the wait | read `"permissions"` and send it with the role Update | not executed | `SystemRole.UpdateResource` | `SystemRole.UpdatePermissions` |
| sandwich/utils.go:9-11 | `getProject` looks up the attribute `"project"`, which no resource schema declares, so the resource's own `project_name` is never used | a record with `project_name = "p1"` and configured project `"p0"` resolves to `"p0"`; with no configured project it fails with "project: required field is not set" | look up `"project_name"` first, then fall back to the configured project | not executed | `Utils.ProjectNameIgnored` | `Utils.GetProjectNamePrecedence` |

The project-scoped hooks of this model (image, project policy binding,
project policy member and project policy) resolve their project with the
as-written lookup `Utils.GetProject`, as the source does, so their contracts
describe the behaviour the finding exhibits. The corrected lookup
`Utils.GetProjectName` is defined beside it, and its precedence is proved.
Likewise, the system role's Create hook calls the as-written
`SystemRole.UpdateResource`. The corrected `SystemRole.UpdatePermissions` is
proved against the update plan beside it.

Other behaviour that looks surprising is modelled as written, because it
may be intended:

- Add-member edits the last binding for a role, while Read and remove-member
  use the first (`Iam.AddMissesDuplicateRole`).
- A volume detach tolerates every error that is not an API error.
- Zone, instance and region Delete return a NotFound.
