# eki_dev_machine core, modelled in Dafny

`eki_dev_machine` is a command-line tool. It starts a development machine on EC2 and creates a
Docker context that points at the machine over SSH. It leaves a marker file `name@ip` in
`~/.dev_machine`, and then runs a Jupyter container on the machine. Most of the program is
calls to AWS, the Docker SDK and `ssh`. Between those calls sits deterministic logic, and
this project models that logic once the outside state is passed in as plain values:

- **SSH host strings** (`sshhost.dfy`):
  - the connect string `ssh://user@host:port` that `create_docker_context` stores;
  - `ssh_splitter`, which takes that string apart again.
- **Docker context store** (`dockercontexts.dfy`): the store is a sequence of
  `Context(name, host)`. The model covers creating a context, looking a context up by IP,
  listing `(name, ip)` pairs, the name-free check, and removal.
- **Marker files** (`markers.dfy`): register and deregister on a directory listing of
  `name@ip` file names.
- **Configuration merge** (`configmerge.dfy`): `update_dict`, `retrieve_configuration` and
  `update_ssh_key_name`, over nested mappings.
- **Tags** (`instancetags.dfy`):
  - the parse of the project allow-list;
  - the tag rewrite of `add_instance_tags`, both as written and as intended.
- **Machine life cycle** (`devmachine.dfy`):
  - `create_ec2_instance`: the allow-list gate, the context-name gate, the launch, the
    context and the marker, and the rollback through `terminate_instance`. The launch is
    tagged by the corrected tag rewrite (see "## Findings"), and
    `DevMachine.CreateAsWrittenWhenSeparated` shows it is the launch the code performs
    whenever no two user tags are adjacent;
  - `terminate_instance` and `_remove_instance`, over a `World` of contexts, markers and
    instances.
- **Clean-up** (`cleanup.dfy`): `clean_dangling_contexts`, written as a loop and proved equal
  to a reference definition, plus its invariants.
- **Registry and notebook strings** (`dockerregistry.dfy`, `notebook.dfy`):
  - the token search and the ten-read bound of `wait_for_token`;
  - the retry bounds of `login_into_ecr`;
  - the image reference and `DOCKER_HOST` of `_run_jupyter_notebook`.
- **Support** (`pystr.dfy`, `wrappers.dfy`):
  - the Python string operations the code relies on: `replace`, `partition`, `rpartition`,
    `split`, `join`, `strip` and `str(int)`;
  - `Option` and `Result`.

Outside answers are parameters. What AWS reports (the allow-list body, the IAM user, the
launched id, whether the waiter returned, the public IP) is a `CloudAnswers` value. Whether
the Docker library refuses a context is a `bool`, or a `set` of refused names for removals.
The successive outputs of `container.logs()` are a sequence, and the engine's login replies
are another.

Where a test and the code disagree, the model follows the code. The check at
`tests/test_utils.py:132` expects `project` at index 1 of the rewritten tags. The code puts
`user_id` there (`InstanceTags.FixtureTagOrder`).

Several behaviours of `create_ec2_instance` are modelled as they are, and each is stated by
a lemma:

- `instance.state` is a dict, so the handler's `not in [...]` test is always true, and any
  failure after the launch hands the instance to `terminate_instance`. The original error
  is then re-raised, unless the termination raised one of its own
  (`DevMachine.LaunchRollsBack`).
- `&` does not short-circuit. When no instance exists, the handler raises AttributeError and
  the original error is lost.
- The rollback searches only running instances, so an instance whose waiter gave up is left
  alive (`DevMachine.PendingInstanceSurvivesRollback`).
- An instance without an IP makes `deregister_instance(None, None)` raise TypeError, which
  replaces the original error (`DevMachine.MissingIpRaisesTypeError`).

## Model

| member | source | states |
|---|---|---|
| PyStr.Replace | src/eki_dev/utils.py:216 | `replace` returns a string shorter than the pattern unchanged; with `PyStr.ReplaceFirst` and `PyStr.ReplaceAbsent` it is pinned as the left-to-right pass that replaces every non-overlapping occurrence |
| PyStr.ReplaceFirst | src/eki_dev/utils.py:216 | the text before the leftmost occurrence is copied, that occurrence becomes the replacement, and the scan resumes right after it |
| PyStr.ReplaceLength | src/eki_dev/docker_utils.py:38 | replacing by a string no longer than the pattern never lengthens the text, and replacing by a longer one never shortens it |
| PyStr.ReplaceAbsent | src/eki_dev/docker_utils.py:38 | a string in which the pattern does not occur is returned unchanged |
| PyStr.ReplaceLeading | src/eki_dev/utils.py:216 | a leading occurrence is replaced and the scan resumes right after it |
| PyStr.Partition | src/eki_dev/utils.py:218 | `partition(':')` cuts at the first separator: found iff the separator occurs, the head holds none, and the parts rebuild the input |
| PyStr.RPartition | src/eki_dev/utils.py:219 | `rpartition('@')` cuts at the last separator; without one everything is the tail and the head is empty |
| PyStr.Split | src/eki_dev/utils.py:158 | `split(sep)` gives at least one field, no field holds the separator, and joining the fields gives the input back |
| PyStr.SplitCount | src/eki_dev/utils.py:158 | the number of fields is the number of separators plus one |
| PyStr.SplitJoin | src/eki_dev/dev_machine.py:126 | splitting a join of separator-free fields gives the fields back |
| PyStr.Strip | src/eki_dev/utils.py:158 | `strip()` drops only whitespace, from both ends, and leaves no whitespace at either end |
| PyStr.IntToString | src/eki_dev/docker_utils.py:58 | `str(port)` is a decimal numeral (sign and digits only), so it holds no `:`, `@` or `/` |
| SshHost.SshSplit | src/eki_dev/utils.py:216-220 | `ssh_splitter` is total and the host it returns holds neither `:` nor `@`, nor the user a `:` |
| SshHost.SplitUserHostPath | src/eki_dev/utils.py:217-220 | a scheme-free `u@h:p` splits into `(u, h, p)` |
| SshHost.SplitHostPath | src/eki_dev/utils.py:217-220 | `h:p` without a user splits into `('', h, p)` |
| SshHost.SplitUserHost | src/eki_dev/utils.py:217-220 | `u@h` without a path splits into `(u, h, '')` |
| SshHost.HostStringRoundTrip | src/eki_dev/utils.py:216-220 | `ssh_splitter("ssh://"+u+"@"+h+":"+p) == (u, h, p)` when `u`, `h` have no `:`, `h` no `@`, and `p` holds no `ssh://` and does not start with `//` |
| SshHost.NoSchemeInBody | src/eki_dev/utils.py:216 | the `replace` deletes only the leading scheme of such a string |
| SshHost.ContextHostParses | src/eki_dev/docker_utils.py:58 | the host string `create_docker_context` builds splits back into the user, the address and `str(port)`, for every port |
| SshHost.SchemeUserHostRoundTrip | src/eki_dev/dev_machine.py:111 | `ssh://user@host` splits into the user, the host and an empty path |
| SshHost.SplitterExampleWithScheme | tests/test_utils.py:164-165 | `ssh://test_user@1.0.1.1:22` gives `('test_user', '1.0.1.1', '22')` |
| SshHost.SplitterExampleWithoutScheme | tests/test_utils.py:168-169 | `test_user@1.0.1.1:22` gives the same triple |
| SshHost.SplitterExampleWithoutUser | tests/test_utils.py:172-173 | `ssh://1.0.1.1:22` gives `('', '1.0.1.1', '22')` |
| SshHost.SplitterExampleWithoutPort | tests/test_utils.py:176-177 | `ssh://1.0.1.1` gives `('', '1.0.1.1', '')` |
| ConfigMerge.Merge | src/eki_dev/utils.py:23-28 | the merge keeps a mapping a mapping with exactly its old keys (no key is ever added), and an empty update changes nothing |
| ConfigMerge.MergeOverridesScalars | src/eki_dev/utils.py:25-28 | a value the update gives where the base holds a non-mapping replaces it |
| ConfigMerge.MergeKeepsUnmentioned | src/eki_dev/utils.py:24-28 | a path the update does not reach keeps its value |
| ConfigMerge.MergeKeepsPaths | src/eki_dev/utils.py:23-28 | every path of the base still exists after the merge |
| ConfigMerge.MergeSelf | src/eki_dev/utils.py:23-28 | a mapping merged with itself is unchanged |
| ConfigMerge.MergeIdempotent | src/eki_dev/utils.py:23-28 | applying the same update twice equals applying it once, and the second application cannot raise |
| ConfigMerge.UserSettingsWin | src/eki_dev/utils.py:57-60 | `retrieve_configuration` succeeds, the user's `KeyName` wins, and defaults the user file does not mention are kept (tests/test_utils.py:67-76) |
| ConfigMerge.PutThenGet | src/eki_dev/utils.py:66 | after `update`, the key reads the new value |
| ConfigMerge.PutElsewhere | src/eki_dev/utils.py:66 | paths unrelated to the updated key read as before |
| ConfigMerge.UpdateSshKeyName | src/eki_dev/utils.py:63-67 | succeeds exactly when `Ec2Instance.Properties` is a mapping, and then `KeyName` is the new name |
| ConfigMerge.SshKeyNameOnlyChangesKeyName | src/eki_dev/utils.py:63-67 | every path that is neither above nor below `KeyName` is unchanged |
| ConfigMerge.DefaultUserConfigAcceptsKeyName | src/eki_dev/utils.py:53 | the configuration used without a user file accepts a new key name |
| InstanceTags.ParseProjectTags | src/eki_dev/utils.py:158 | the tags joined with `,` give the stripped body, there is one tag more than commas, and no tag holds a comma |
| InstanceTags.ParseThreeTags | src/eki_dev/utils.py:158 | `a,b,c` with no surrounding whitespace parses into `[a, b, c]` |
| InstanceTags.ProjectTagsExample | tests/test_utils.py:121-123 | `dev,eki_training,test_project` parses into those three tags |
| InstanceTags.FirstIndex | src/eki_dev/utils.py:173 | `list.remove(t)` deletes the first tag equal to `t` |
| InstanceTags.SweepKeepsOthers | src/eki_dev/utils.py:173 | the remove-while-iterating sweep keeps every non-user tag, in order |
| InstanceTags.SweepClearsSeparatedUserTags | src/eki_dev/utils.py:173 | when no two user tags are adjacent, the sweep removes them all |
| InstanceTags.AddInstanceTagsAsWritten | src/eki_dev/utils.py:162-188 | as written, the result ends with `user`, `user_id`, `project` carrying the given values, and the tags before them hold the old non-user tags in their order |
| InstanceTags.AddInstanceTagsAsWrittenShape | src/eki_dev/utils.py:162-188 | as written, non-user tags keep their order, `user`, `user_id`, `project` follow with the given values, and without adjacent user tags no old user tag survives |
| InstanceTags.AdjacentUserTagSurvives | src/eki_dev/utils.py:173 | two adjacent user tags: the second survives the sweep |
| InstanceTags.FixtureTagOrder | src/eki_dev/utils.py:162-188 | the test fixture's single user tag gives `user`, `user_id`, `project` in that order |
| InstanceTags.AddInstanceTags | src/eki_dev/utils.py:172-187 | as intended: the non-user tags, then the three identity tags; no old user tag is left |
| InstanceTags.AddInstanceTagsSingleUser | src/eki_dev/utils.py:172-174 | the intended rewrite leaves exactly one user tag, the new one |
| InstanceTags.AsWrittenAgreesWhenSeparated | src/eki_dev/utils.py:173 | as written and as intended agree whenever no two user tags are adjacent |
| Markers.MarkerNameSplits | src/eki_dev/utils.py:199 | a marker `name@ip` splits on `@` into `[name, ip]` when neither part holds `@` |
| Markers.MarkerNameTwoFields | src/eki_dev/dev_machine.py:214 | a marker that splits into two fields, built from an `@`-free address, gives back its name and address |
| Markers.Register | src/eki_dev/utils.py:191-201 | afterwards exactly the old files and the marker are listed, each once |
| Markers.Deregister | src/eki_dev/utils.py:204-213 | afterwards exactly the old files other than the marker are listed, each once |
| Markers.RegisterIdempotent | src/eki_dev/utils.py:198-200 | registering twice is registering once |
| Markers.DeregisterAbsent | src/eki_dev/utils.py:209-212 | deregistering a missing marker changes nothing |
| Markers.RegisterThenDeregister | tests/test_utils.py:135-146 | register then deregister leaves no marker and restores a directory that lacked it |
| DockerContexts.FindContextName | src/eki_dev/docker_utils.py:105-115 | None exactly when no context's parsed host is the IP, otherwise the name of the first such context in listing order |
| DockerContexts.ListHostIps | src/eki_dev/docker_utils.py:118-125 | one pair per context, in listing order, the i-th being its name and parsed address |
| DockerContexts.PairsAgreeWithFind | src/eki_dev/docker_utils.py:105-125 | looking an IP up in the pair list answers as `find_context_name_from_instance_ip` |
| DockerContexts.CheckDoesNotExist | src/eki_dev/docker_utils.py:128-136 | True exactly when no context has the name, otherwise ContextAlreadyExists carrying it (tests/test_docker_utils.py:41-50) |
| DockerContexts.CreateContext | src/eki_dev/docker_utils.py:54-72 | a taken name raises ContextAlreadyExists, another refusal is re-raised, success appends `Context(name, "ssh://user@ip:port")` |
| DockerContexts.CreateKeepsNamesUnique | src/eki_dev/docker_utils.py:61-64 | creating keeps context names unique |
| DockerContexts.FindAfterCreate | src/eki_dev/docker_utils.py:58-112 | a context created for an address is found by it when no older context points there |
| DockerContexts.RemoveContext | src/eki_dev/docker_utils.py:93-102 | a refused name raises; otherwise no context keeps the name and every other context is kept (tests/test_docker_utils.py:81-95) |
| DockerContexts.RemoveAbsentName | src/eki_dev/docker_utils.py:98-100 | removing a missing name gives the same listing back |
| DockerContexts.RemoveTwice | src/eki_dev/docker_utils.py:93-102 | removing is idempotent |
| DockerContexts.WithoutNameKeepsUnique | src/eki_dev/docker_utils.py:93-102 | removing keeps names unique |
| DockerRegistry.HexRun | src/eki_dev/docker_utils.py:172 | the greedy `[a-f0-9]+` run is the longest all-hex prefix |
| DockerRegistry.SearchFrom | src/eki_dev/docker_utils.py:172 | the leftmost match from a position on, None iff there is none |
| DockerRegistry.SearchToken | src/eki_dev/docker_utils.py:172-176 | a token is non-empty lowercase hex, and None exactly when the logs hold no match |
| DockerRegistry.TokenFromLogLine | src/eki_dev/docker_utils.py:172-176 | logs holding `?token=t` with no earlier `?` yield exactly `t` |
| DockerRegistry.WaitForToken | src/eki_dev/docker_utils.py:166-181 | at most ten reads; the token of the first read that has one, None after ten reads without |
| DockerRegistry.FirstTokenAfterMisses | src/eki_dev/docker_utils.py:170-178 | reads without a match do not change the answer |
| DockerRegistry.Credentials | src/eki_dev/docker_utils.py:20 | the two-name unpacking succeeds exactly when the token has one `:`, and the names rebuild it |
| DockerRegistry.CredentialsRoundTrip | src/eki_dev/docker_utils.py:20 | `user:password` gives back both halves |
| DockerRegistry.LoginIntoEcr | src/eki_dev/docker_utils.py:16-51 | ValueError exactly when the token does not hold one `:`; at most 500 client attempts, raising exactly when all fail; at most 3 logins, stopping at the first `Login Succeeded`; a failed login still returns the client; KeyError escapes exactly when a client connects and, within the three logins, a reply without `Status` comes before any success, and a returned client read a `Status` in every reply. Together these say exactly when the client is returned |
| DockerRegistry.RegistryLosesScheme | src/eki_dev/docker_utils.py:38 | a registry given with `https://` is logged into by its bare host |
| Notebook.ResolveImage | src/eki_dev/dev_machine.py:107-109 | the split succeeds exactly when the name has one `:`; repository and tag rebuild `registry/name:tag` |
| Notebook.RunReferenceIsRegistryAndName | src/eki_dev/dev_machine.py:126 | the run reference is the registry, `/`, and the container name as given |
| Notebook.ResolveRoundTrip | src/eki_dev/dev_machine.py:108-109 | a name and tag without `:` are split back apart |
| Notebook.DefaultContainerResolves | src/eki_dev/dev_machine.py:108-109 | `data_explorer:prod` is pulled as `prod` from the `data_explorer` repository |
| Notebook.DockerHost | src/eki_dev/dev_machine.py:111 | `DOCKER_HOST` is a connect string that `ssh_splitter` reads as the user and the host, with no path |
| DevMachine.FirstRunning | src/eki_dev/dev_machine.py:294-311 | the first running instance with the id, None iff there is none |
| DevMachine.RemoveInstance | src/eki_dev/dev_machine.py:325-342 | the instance is terminated first; without a context TypeError is raised and nothing else changes; with one, the removal raises exactly when the library refuses the name, the refusal escaping as it is, and otherwise its context and marker `ctx@ip` go |
| DevMachine.TerminateInstance | src/eki_dev/dev_machine.py:289-313 | a None id or no running match changes nothing; otherwise `_remove_instance` on the first running match |
| DevMachine.TerminateTouchesOneInstance | src/eki_dev/dev_machine.py:305-311 | every instance but the first running one with the id is unchanged |
| DevMachine.TerminateRemovesOnlyItsContext | src/eki_dev/dev_machine.py:328-334 | when a context is found for the instance and its removal is not refused, termination raises nothing and exactly the contexts not named by the IP lookup remain |
| DevMachine.TerminateWithRefusedContext | src/eki_dev/dev_machine.py:330-334 | a refused context removal escapes after the instance is terminated; contexts and markers stay |
| DevMachine.TerminateKeepsConsistent | src/eki_dev/dev_machine.py:289-341 | termination keeps names unique, markers listed once, and every marker backed by its context |
| DevMachine.RemovalKeepsConsistent | src/eki_dev/dev_machine.py:333-338 | removing the context found by IP and its marker keeps that consistency |
| DevMachine.CreateEc2Instance | src/eki_dev/dev_machine.py:32-95 | a failed gate raises with the world unchanged; a missing instance makes the handler raise AttributeError; success appends a running instance with an IP |
| DevMachine.Gate | src/eki_dev/dev_machine.py:49-60 | the checks before any request pass exactly when the project tag is on the allow-list, a tag list exists, and no context has the name; a failure is one of those three errors |
| DevMachine.Rollback | src/eki_dev/dev_machine.py:83-90 | the world is the one `terminate_instance(instance.id)` leaves; the original error is re-raised when the termination raises nothing, and the termination's own error escapes otherwise |
| DevMachine.CreateAsWrittenWhenSeparated | src/eki_dev/dev_machine.py:51 | past the gate, when no two user tags are adjacent, the modelled creation is exactly the launch tagged by `add_instance_tags` as written |
| DevMachine.LaunchAndRegister | src/eki_dev/dev_machine.py:62-95 | on success the launched instance, running and with an IP, is appended |
| DevMachine.GateOrder | src/eki_dev/dev_machine.py:49-60 | the allow-list is checked first, then the tag list, then the context name; a failure requests no instance |
| DevMachine.LaunchSucceeds | src/eki_dev/dev_machine.py:74-95 | success returns the running instance, appends its context, adds exactly the marker `name@ip`, and the IP lookup finds the context |
| DevMachine.CreateSucceeds | src/eki_dev/dev_machine.py:49-95 | success means both gates passed, and the instance carries the tags of the corrected rewrite and has its context and marker |
| DevMachine.LaunchRollsBack | src/eki_dev/dev_machine.py:83-90 | a failure after the launch runs `terminate_instance(instance.id)` on the world holding the instance, no marker is added, and the bare `raise` lets the original error escape unless the termination raised its own |
| DevMachine.PendingInstanceSurvivesRollback | src/eki_dev/dev_machine.py:74-89 | when the waiter gives up, the pending instance is not terminated and the waiter's error escapes |
| DevMachine.MissingIpRaisesTypeError | src/eki_dev/dev_machine.py:78-90 | without an IP the instance is terminated and TypeError replaces the original error |
| DevMachine.LaunchKeepsConsistent | src/eki_dev/dev_machine.py:62-95 | every outcome of the launch keeps markers and contexts consistent |
| DevMachine.CreateKeepsConsistent | src/eki_dev/dev_machine.py:32-95 | every outcome of `create_ec2_instance` keeps markers and contexts consistent |
| Cleanup.InstanceIps | src/eki_dev/dev_machine.py:205-208 | one public IP per listed instance, whatever its state |
| Cleanup.CleanedNamesOfStale | src/eki_dev/dev_machine.py:212-227 | a name is reported iff a stale marker carries it; reported plus kept is every marker |
| Cleanup.KeptMarkersNotStale | src/eki_dev/dev_machine.py:213-226 | a file is kept iff it is not stale; files stay listed once |
| Cleanup.PruneContextsMembers | src/eki_dev/dev_machine.py:218-221 | a context survives iff its name was not reported or its removal was refused |
| Cleanup.CleanDanglingContexts | src/eki_dev/dev_machine.py:201-229 | the loop over the marker files computes the reference clean-up |
| Cleanup.CleanRemovesExactlyStale | src/eki_dev/dev_machine.py:201-229 | a marker goes iff stale, one name is reported per marker gone, a context goes iff reported and not refused, instances are untouched |
| Cleanup.MalformedMarkersKept | src/eki_dev/dev_machine.py:213-216 | a file that does not split into two fields on `@` is never touched |
| Cleanup.LiveMarkersKept | src/eki_dev/dev_machine.py:217 | a marker whose address some instance has is kept |
| Cleanup.RefusedContextsStay | src/eki_dev/dev_machine.py:218-221 | a context whose removal is refused stays, and the error is swallowed |
| Cleanup.NothingStale | src/eki_dev/dev_machine.py:212-227 | with no stale marker nothing is reported and every file is kept |
| Cleanup.CleanIdempotent | src/eki_dev/dev_machine.py:201-229 | a rerun against the same instances cleans nothing and changes nothing |
| Cleanup.StaleMarkerIsOwnMarker | src/eki_dev/dev_machine.py:214-219 | in a consistent world, the stale marker naming a context is that context's own marker |
| Cleanup.CleanKeepsConsistent | src/eki_dev/dev_machine.py:201-229 | the clean-up keeps markers and contexts consistent |

## Left out

- AWS calls are not modelled: `aws_service.py`, `create_instances`, `wait_until_running`, `reload`, S3 `get_object`, IAM `get_user`, `create_key_pair`. Their answers are the fields of `CloudAnswers` or other parameters.
- The Docker SDK is not modelled (`ContextAPI`, `from_env`, `login`, `api.pull`, `containers.run`, `logs`). The context store is a sequence, and the library's own validation of names and hosts is the `refused` parameters.
- `inspect_docker_context` and `list_docker_context` are not modelled; they only read the store.
- `_check_docker_installed`, `ssh_tunnel` and the `while not _check_docker_installed` loop are left out: they run `ssh` through `subprocess`.
- `time.sleep` and the waiting between attempts are left out; only the attempt bounds are kept.
- The base64 decoding of the ECR token is left out (section 4 of RFC 4648, done by the library). `DockerRegistry.LoginIntoEcr` takes the decoded string.
- File and terminal I/O is left out: YAML reading and writing in `Config`, `create_ssh_keys`, `user_input_configuration`, `generate_makefile`, and `mkdir`/`touch`/`os.remove`.
- `os.walk` is flattened: the marker directory is one listing of file names, and subdirectories are not modelled.
- `Cleanup.CleanDanglingContexts` assumes `os.remove` of a marker succeeds. The code swallows a failure and still reports the name; a file that could not be deleted would stay listed.
- `create_instance_pull_start_server` is left out; it is orchestration of the modelled pieces plus I/O. The rest of `_run_jupyter_notebook` (pull, run, progress) is left out too; only its string work is modelled.
- `show_progress`, `_display` and `list_instances` are output only and are left out.
- `ClientError` handlers are left out: the modelled cloud answers never raise them.
- `KeyboardInterrupt` during `create_ec2_instance` is left out.
- `ConfigMerge.UpdateDict`: a failing merge is None and does not say which key raised, because that depends on dictionary order.
- `DevMachine.CreateEc2Instance`: the launch is tagged by the corrected rewrite `InstanceTags.AddInstanceTags`, not by the sweep at utils.py:173 as written. The two differ only when two user tags are adjacent in the given list; there the code launches with a stale user tag that the model drops (`InstanceTags.AdjacentUserTagSurvives`). `DevMachine.CreateAsWrittenWhenSeparated` states the agreement in every other case.
- `DevMachine.CreateSucceeds`: the tags it states are the corrected rewrite's, so for adjacent user tags they are not the tags the code as written launches with, for the same reason.
- `add_instance_tags` mutates the caller's list in place: `TagSpecifications[0]['Tags']` (utils.py:173-187). The `**` unpacking copies only the top-level dict, so the list is shared with the configuration `bin/dev_machine.py` passes in. The model treats tags as a value and does not model that aliasing.
- The context listing order is modelled as creation order, with new contexts appended.
- `DockerRegistry.WaitForToken`: the outputs are the ten reads, supplied up front.
- `SshHost.HostStringRoundTrip` needs one more condition than "`p` holds no `ssh://`": `p` must not start with `//`. Take `h = "ssh"` and `p = "//x"`: the string `ssh://u@ssh://x` holds a second `ssh://` across the `:`, and `replace` deletes it. Ports rendered by `str(int)` meet both conditions.
- Addresses are plain IPv4 addresses or host names, without `:` or `@`; IPv6 is not modelled.
- The CLI entry points (`bin/dev_machine.py`, `dev_machine.py`) and the legacy `dev_machine/dev_machine.py` and `aws_cluster/ec2_fleets.py` are not part of this model.

## Findings

| source | as written | input that shows it | evidently intended | confidence | as-written member | corrected member |
|---|---|---|---|---|---|---|
| src/eki_dev/utils.py:173 | the comprehension removes user tags from the list it is iterating over, so each removal slides the next tag under the cursor, where it is skipped | `Tags = [{user: a}, {user: b}]`: `{user: b}` survives, and the result holds two user tags | every pre-existing user tag is removed before the new one is appended (the comment at line 172) | not executed; follows from Python's list iteration by index | InstanceTags.AdjacentUserTagSurvives | InstanceTags.AddInstanceTags |
