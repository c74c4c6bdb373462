# rancher-go: project reconciliation, modelled in Dafny

`rancherctl` keeps the projects of a Rancher cluster in line with a
configuration file. For each declared project, `project apply` does one of two
things:

- with an id, it updates the project: it fetches the current detail, PUTs the
  fields, sets the pod security policy template if it changed, and adds and
  deletes project role-template bindings until the bindings match the declared
  members;
- without an id, it creates the project and binds its members.

`project get` collects the details of one project or of every project.

The client library behind these commands talks to the Rancher v3 API. This
model covers the following parts of it:

- member identity (`Member.Compare`), `hasMember` and the two membership
  differences;
- `parseGroupFromPrincipalID`, `parseEntities`, the member classifier of
  `GetProjectMembers` and the group filter of `GetProjectGroups`;
- the client calls, with their error discipline: which failures are
  returned, and which are only logged;
- the `projectApply` batch driver and the `projectGet` loop;
- the command line's short-flag expander `parseArgs` and `checkArgs`.

The Rancher API is modelled as a store of projects and bindings. It sits
behind a network, given as a function from (position in the request log,
request) to an answer. An answer is either "unreachable", which the HTTP
client reports as an error, or a status code. For a create, the answer also
carries the id the server assigns.

- Every request sent is logged.
- A write takes effect only with its success status: 201 for creates, 200
  otherwise.
- A GET returns the stored data when answered with 200, and an empty body
  otherwise.

Since the network is a parameter, every property holds for every
behaviour of the server.

The layout has three parts:

- Module `ClientSpec` says, as pure functions, what each client call returns,
  sends and changes.
- Module `Client` holds the calls as methods over the `Remote.Rancher`
  object. Each method is proved to compute exactly its `ClientSpec` function.
- Modules `ClientProps`, `Reconcile` and `ProjectProps` prove what those
  functions promise.

The model follows the code, also where the code is looser than the
intended design:

- The PUT of `UpdateProject`, `SetProjectPSP`, the quota GET and the
  members GET check no status code. Only transport errors make them fail.
  A rejected PUT therefore does not fail the update.
- `GetProjectDetail` fails on a non-200 answer only for its third GET.
- A repeated identical update is meant to be idempotent. In the code, this holds
  only under conditions, and `Reconcile.UpdateConverges` and
  `Reconcile.ReconciledUpdateIsQuiet` state them:
  - the members GET must be answered with 200; otherwise the fetched member
    list is empty and every declared member is added again;
  - every binding create and delete must succeed;
  - a User member with an empty principal reads back as a Group, so it is
    never recognised as bound.
- `len(dnParts) < 1` in `parseGroupFromPrincipalID` can never hold.
  `Parsers.ParseGroupFromPrincipalId` proves that its error is never
  returned.

## Model

| member | source | states |
|---|---|---|
| Types.Compare | client/types.go:35-39 | Two members compare equal exactly when their keys (type, principal, role) are equal, whatever their ids |
| Types.CompareIgnoresId | client/types.go:35-39 | Changing only a member's id keeps it equal to itself, both ways |
| Types.CompareIsEquivalence | client/types.go:35-39 | Compare is reflexive, symmetric and transitive |
| Types.DistinctRolesAreDistinctBindings | client/types.go:35-39 | The same principal with another role is a different binding |
| Membership.HasMember | client/client.go:370-378 | The linear search returns true exactly when some member compares equal to the target |
| Membership.HasKeyIffKeyIn | client/client.go:370-378 | A key match exists exactly when the target's key is among the members' keys |
| Membership.DiffMembers | client/client.go:337-347 | The two loops return the desired members that have no match among the fetched ones, and the fetched members that have no match among the desired ones |
| Membership.MissingIff | client/client.go:337-347 | A member is in the difference exactly when it is in the first list and has no key match in the second |
| Membership.MissingConcat | client/client.go:337-347 | The difference keeps input order: the difference of a concatenation is the concatenation of the differences |
| Membership.MissingKeys | client/client.go:337-347 | By key, the difference is the set difference of the two key sets |
| Membership.MissingEmptyIff | client/client.go:337-347 | Nothing is missing exactly when every key of the first list is a key of the second |
| Membership.SameKeysNoDiff | client/client.go:337-347 | Equal key sets give two empty differences, so no member is added or deleted |
| Membership.MatchedBindingUntouched | client/client.go:337-347 | A member present on both sides, even under different ids, is neither added nor deleted |
| Parsers.JoinSplit | client/parsers.go:18-23 | Joining the pieces of a split at a separator gives back the split string |
| Parsers.SplitJoin | client/parsers.go:18-23 | Splitting a join of separator-free pieces gives back the pieces |
| Parsers.ParseGroupFromPrincipalId | client/parsers.go:12-31 | Rejected as an invalid principal exactly without the openldap_group prefix. Rejected as an invalid CN value exactly when the first component has no '='. Never rejected as CN not found. Accepted exactly when the distinguished name starts with "cn=". The name contains no ',' or '=' and is the run after "cn=" up to the end, a ',' or a '=' |
| Parsers.SchemeSeparatorIgnored | client/parsers.go:13-17 | The three characters after "openldap_group" are skipped without being examined: when the first 17 characters and the replacement are single-byte characters, any three characters there give the same result |
| Parsers.ParseGroupValue | client/parsers.go:17-30 | A principal whose distinguished name is "cn=" + v + a tail starting with ',' or '=' (or empty) parses to v |
| Parsers.ParseGroupAccepts | client/parsers.go:11-31 | "openldap_group://cn=" + v + tail parses to v, for every v free of ',' and '=' |
| Parsers.ComponentKey | client/parsers.go:22-28 | A first component "key=..." has key "cn" whenever the name starts with "cn=" |
| Parsers.ParseGroupRejectsOtherKey | client/parsers.go:27-28 | A first component whose key is not "cn" is rejected with "CN field not found" |
| Parsers.ParseGroupValidExample | client/parsers_test.go:17-22 | "openldap_group://cn=foo,ou=Groups,dc=example.com" gives "foo" |
| Parsers.ParseGroupNoCnExample | client/parsers_test.go:23-28 | "openldap_group://ou=Groups,dc=example.com" is rejected |
| Parsers.ParseGroupWrongSchemeExamples | client/parsers_test.go:29-40 | A principal with no scheme, or with "openldap://", is rejected as an invalid principal |
| Parsers.ParseEntities | client/parsers.go:43-57 | Keeps, in order, exactly the records whose id and name are both non-empty |
| Flags.ParseArgs | cmd/rancherctl/flags.go:13-35 | The argument loop returns the left-to-right expansion of the arguments, or the first argument's error |
| Flags.AppendCluster | cmd/rancherctl/flags.go:17-29 | The character loop appends the cluster's expansion to what was collected so far, or fails with that cluster's error |
| Flags.ErrPropagates | cmd/rancherctl/flags.go:19-27 | Once an argument fails, the later arguments do not change the error |
| Flags.ExpandArgsConcat | cmd/rancherctl/flags.go:15-33 | Expansion works argument by argument: expanding a concatenation concatenates the expansions |
| Flags.FailingArgFailsParse | cmd/rancherctl/flags.go:19-27 | A failing argument makes the whole parse fail, wherever it stands |
| Flags.NoClusterIsIdentity | cmd/rancherctl/flags.go:30-31 | Arguments with no short-flag cluster are returned unchanged |
| Flags.CopiedInPlace | cmd/rancherctl/flags.go:30-31 | An argument that is not a short-flag cluster is copied unchanged, between the expansions of its neighbours |
| Flags.LettersExpand | cmd/rancherctl/flags.go:24-25 | "-abc" expands to "-a", "-b", "-c" |
| Flags.EqualsFirstFails | cmd/rancherctl/flags.go:18-20 | A '=' right after the dash is an error |
| Flags.EqualsGluedToLastFlag | cmd/rancherctl/flags.go:18-23 | In "-ab=v", the text from '=' on is appended to the last flag, giving "-a", "-b=v"; nothing after the '=' is examined |
| Flags.OtherCharFails | cmd/rancherctl/flags.go:26-27 | A character before any '=' that is neither a letter nor '=' fails the argument with that character, including a '-' after a letter; only a '-' right after the dash is excluded, since it makes a long option that is copied |
| Flags.CheckArgs | cmd/rancherctl/flags.go:55-69 | No error exactly when all three settings are set. Otherwise the first empty one, in the order rancher-url, cluster, token, is reported |
| Remote.Exchange | client/client.go:64-70 | Every request is logged. An unanswered request changes no stored data, and neither does any GET |
| Remote.Rancher.Send | client/client.go:64-70 | Sending a request does to the remote object what Exchange says |
| ClientSpec.MembersOf | client/client.go:72-93 | One member per binding |
| Client.GetProjectQuotas | client/client.go:214-239 | Sends one GET. Fails only when it is not answered, and otherwise returns the quotas read from the body, whatever the status |
| Client.GetProjectMembers | client/client.go:63-94 | Sends one GET. Fails only when it is not answered, and otherwise returns the classified bindings, whatever the status |
| Client.GetProjectDetail | client/client.go:96-127 | Quotas, then members, then fields. The first failure is returned, and the last GET must be answered with 200 |
| Client.GetProjects | client/client.go:150-161 | Sends one GET. Fails only when it is not answered, and otherwise returns the named entries |
| Client.GetProjectGroups | client/client.go:176-199 | The group loop returns the names of the non-empty principal ids that parse to a non-empty name, in order |
| Client.AddProjectMember | client/client.go:380-417 | Builds the payload of a User or Group member and refuses any other type before sending. Success means 201 |
| Client.SetProjectPsp | client/client.go:419-432 | Sends the policy action. Fails only when it is not answered |
| Client.DeleteProjectMember | client/client.go:434-448 | Sends the DELETE of the binding id. Success means 200 |
| Client.AddMembers | client/client.go:351-356 | Adds each member in turn, ignoring each call's error |
| Client.DeleteMembers | client/client.go:358-363 | Deletes each member's binding id in turn, ignoring each call's error |
| Client.CreateProject | client/client.go:241-294 | Sends the create, requires 201 and an id, binds every member best-effort, then returns the policy call's error |
| Client.UpdateProject | client/client.go:296-368 | Fetch, PUT, a policy change if needed, then the member additions and deletions, best-effort |
| ClientProps.PayloadFields | client/client.go:380-401 | A payload exists exactly for User and Group. A User fills only the user principal and a Group only the group principal |
| ClientProps.StoredBindingReadsBack | client/client.go:83-90 | The binding stored for a member reads back, through the classifier, with the assigned id. It compares equal to the member exactly unless the member is a User with an empty principal |
| ClientProps.MembersOfIndex | client/client.go:75-92 | The i-th member is the classification of the i-th binding |
| ClientProps.ClassifierRule | client/client.go:79-90 | The result is a User exactly when the user principal is non-empty. Id and role are kept, and the principal comes from the field that decided the type |
| ClientProps.InvalidMemberSendsNothing | client/client.go:399-401 | A member of any other type gets "invalid member type" and nothing is sent |
| ClientProps.AddMemberOutcome | client/client.go:403-416 | Sends one POST. Succeeds exactly when it is answered with 201, and then a binding of the project with the assigned id reads back as the member |
| ClientProps.DeleteMemberOutcome | client/client.go:434-448 | Sends one DELETE. Succeeds exactly when it is answered with 200, and then no binding with that id remains |
| ClientProps.SetPspOutcome | client/client.go:419-432 | Sends one request. Fails exactly when it is not answered, and then with a transport error |
| ClientProps.DetailReadsOnly | client/client.go:96-127 | The detail fetch changes no stored data. It sends a prefix of its three GETs, and all three when it succeeds |
| ClientProps.DetailOkIff | client/client.go:96-116 | The detail fetch succeeds exactly when its three GETs are answered and the last one with 200 |
| ClientProps.DetailReflectsStore | client/client.go:107-126 | With three 200 answers, the detail is the stored fields and quotas with the members decoded from the project's bindings |
| ClientProps.DeleteRequestsIndex | client/client.go:358-363 | The i-th DELETE is for the i-th stale member's binding id |
| ClientProps.AddAllLog | client/client.go:351-356 | The add loop sends one POST per valid member, in order, whatever the answers |
| ClientProps.DeleteAllLog | client/client.go:358-363 | The delete loop sends one DELETE per member, by binding id, in order, whatever the answers |
| ClientProps.UpdateErrors | client/client.go:296-335 | The update fails exactly when one of these happens, and with that error: the fetch fails, the PUT is unanswered, or a needed policy call is unanswered. Member failures never change the result |
| ClientProps.UpdateRequests | client/client.go:318-363 | A successful update sends, in this order: the three GETs, the PUT, the policy call if the policy changed, the POSTs for the new members, and the DELETEs for the stale ones |
| ClientProps.UpdateFailureTouchesNoMember | client/client.go:296-335 | A failed update sends no binding create or delete |
| ClientProps.UpdateSameMembersNoMemberCalls | client/client.go:337-363 | When the fetched and the declared members have the same keys, a successful update sends no member request |
| ClientProps.CreateWithoutId | client/client.go:260-280 | No id comes back exactly when the create is unanswered, not answered with 201, or answered without an id. Nothing else is then sent, and an error is returned |
| ClientProps.CreateWithId | client/client.go:282-293 | Once created, the project gets one POST per valid member and then the policy call. The result is that call's error alone |
| ClientProps.GroupNameOfIff | client/client.go:188-196 | A principal id contributes a name exactly when it is non-empty and parses to a non-empty name |
| ClientProps.GroupNamesIff | client/client.go:187-197 | The kept names are exactly those contributed by some principal id |
| ClientProps.GroupNamesAreBare | client/client.go:187-197 | Every kept group name is non-empty and contains no ',' or '=' |
| ProjectCmd.ProjectApply | cmd/rancherctl/project.go:13-51 | The command refuses an empty file name, then a file it cannot read. It then updates or creates each project in turn, and fails exactly as Apply says |
| ProjectCmd.CollectDetails | cmd/rancherctl/project.go:77-85 | At most one detail per listed project; CollectDetailsFetchesEach and CollectDetailsListed say which |
| ProjectCmd.FetchDetails | cmd/rancherctl/project.go:77-85 | The loop collects, in order, the details that could be fetched and skips the others |
| ProjectCmd.ProjectGet | cmd/rancherctl/project.go:68-102 | Without arguments, all projects of the cluster. With an id, that project or the fetch's error |
| ProjectProps.ApplyEmptyFilename | cmd/rancherctl/project.go:14-17 | An empty file name is refused before anything is sent |
| ProjectProps.ApplyReadFailure | cmd/rancherctl/project.go:21-24 | An unreadable file is reported with its error before anything is sent |
| ProjectProps.UpdateExtendsDetail | client/client.go:296-368 | The update's requests come after those of its detail fetch |
| ProjectProps.ApplyOneDispatch | cmd/rancherctl/project.go:27-45 | A project with an id is first fetched by that id, and one without an id is first POSTed |
| ProjectProps.ApplyAllPrefix | cmd/rancherctl/project.go:27-46 | The requests for the first k projects are a prefix of those for the whole batch |
| ProjectProps.ApplyAllAttemptsEach | cmd/rancherctl/project.go:27-46 | Every project is attempted, in order, right after the earlier ones, whatever happened to them |
| ProjectProps.ApplyAllFailsIff | cmd/rancherctl/project.go:26-50 | The batch fails exactly when some create fails. Update failures are only logged |
| ProjectProps.ApplyFailsIff | cmd/rancherctl/project.go:13-51 | The command fails exactly when the file name is empty, the file is unreadable, or some create fails |
| ProjectProps.CollectDetailsPrefix | cmd/rancherctl/project.go:77-85 | The details collected for the first k listed projects, and their requests, are prefixes of those for the whole list |
| ProjectProps.CollectDetailsFetchesEach | cmd/rancherctl/project.go:77-85 | Every listed project is fetched, in listing order, whatever happened to the earlier fetches; when its fetch succeeds its detail is collected right after those of the projects before it |
| ProjectProps.CollectDetailsListed | cmd/rancherctl/project.go:77-85 | Collecting details changes no stored data, and every collected project is one of the listed ones |
| ProjectProps.GetOnlyReads | cmd/rancherctl/project.go:68-102 | `project get` changes no stored project or binding |
| ProjectProps.GetOne | cmd/rancherctl/project.go:91-95 | `project get <id>` succeeds exactly when the detail fetch does. It returns the project with that id, or the fetch's error |
| Reconcile.MembersOfIff | client/client.go:75-92 | A member is decoded exactly when it is the classification of some binding |
| Reconcile.FetchedMembers | client/client.go:96-127 | With the members GET answered 200, the fetched members are exactly those decoded from the project's stored bindings |
| Reconcile.AddAllBinds | client/client.go:351-356 | When every create succeeds with an unused id, the add loop keeps every stored binding and binds each member under its key. Every new binding has the key of some member |
| Reconcile.DeleteAllRemoves | client/client.go:358-363 | When every delete succeeds, exactly the bindings with the members' ids are gone |
| Reconcile.StaleIdIff | client/client.go:343-347 | With unique ids, a binding of the project is deleted exactly when its key is not declared |
| Reconcile.StaleIdsStored | client/client.go:343-347 | Only ids of stored bindings are deleted |
| Reconcile.MemberPhaseKeys | client/client.go:337-363 | After the additions and deletions, the project's keys are exactly the declared keys |
| Reconcile.UpdateMemberPhase | client/client.go:298-363 | The fetch, PUT and policy call of a successful update change no binding, and the member phase follows them |
| Reconcile.UpdateConverges | client/client.go:296-368 | Assume the members GET is answered 200, ids are unique, new ids are unused, and every create and delete succeeds. Then a successful update leaves the project bound to exactly the declared keys |
| Reconcile.ReconciledUpdateIsQuiet | client/client.go:337-363 | An already reconciled project, updated successfully, gets only the three GETs, the PUT and the policy call if needed |
| Reconcile.CreateBindsAll | client/client.go:282-290 | When every create succeeds, a new project with no previous bindings is bound to exactly the declared keys |

## Left out

- HTTP itself: URLs, the auth token, resty and the JSON text of requests and responses. A response is a decoded body. A JSON path that is absent reads as the empty string or the empty map, which is what gjson gives.
- `parseValues`, `GetClusters`, `GetNamespaces` and `GetProjectNamespaces`: they are not part of this model. `GetProjectGroups` gets the group principal ids of the returned bindings directly.
- Reading the YAML configuration file (`ReadProjects`): it is a function parameter from file name to project list or error. YAML printing (`printYAML`) and `projectLs` only print and are left out. `ProjectGet` returns what it would print.
- `projectDelete`: it only prints and panics, so there is no behaviour to model.
- Logging (logrus): every logged-and-ignored error is simply dropped.
- The globals `rancherUrl`, `clusterID` and `token` and the CLI wiring (`defaultAction`, urfave/cli): they are passed as parameters. `CheckArgs` takes the three settings.
- Parsers.ParseGroupFromPrincipalId: requires that a principal starting with "openldap_group" has at least 17 characters. On shorter ones the source's slice `principalID[17:]` panics, and the model does not cover the panic.
- Parsers.ParseGroupFromPrincipalId: the source's `principalID[17:]` drops 17 bytes and the model drops 17 characters. The two agree only when the first 17 characters are single-byte (ASCII) characters. For example, on "openldap_groupé/cn=foo" the source returns "foo" and the model a "CN field not found" error. The length bound of the precondition also counts characters, not bytes.
- Parsers.SchemeSeparatorIgnored: stated only for single-byte characters, for the same reason.
- Client.GetProjectGroups: requires that every stored group principal id meets the same bound, for the same reason.
- Quota values are opaque strings and are never interpreted.
- The server: the network function decides every answer, and the store effects are a choice of this model. Rancher's own validation is not modelled. For example, a duplicate binding is stored like any other binding.
- Reconcile.UpdateConverges and Reconcile.CreateBindsAll: they assume that the server answers every binding create with 201 and a new unused id and every delete with 200, and they state keys, not ids. Without these assumptions the source promises no convergence.
- Flags.ParseArgs: the source ranges over the bytes and runes of the argument, and the model over characters. The two agree because a character that is not an ASCII letter fails before any '=' index is used.
