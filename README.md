# ansible-galaxy install module, modelled in Dafny

This project models the module `community.general.ansible_galaxy_install`, which
wraps the `ansible-galaxy` command line. The model covers four parts:

- **Version.** Running `ansible-galaxy --version` under the `C.UTF-8` locale and,
  when that locale is missing, once more under `en_US.UTF-8`. The version is read
  from the first output line, and anything older than 2.11 is refused.
- **Listing.** What is already installed, read from `ansible-galaxy <type> list`.
  The listing is a map from install path to a map from name to version. It can be
  narrowed by the `dest` and `name` parameters.
- **Install.** The versions of the collections and roles that `ansible-galaxy
  <type> install` reports as installed, collected into `new_collections` and
  `new_roles`.
- **Command lines.** The command lines the module builds from its parameters.

A version is whatever the listing and install patterns capture: a run of digits
and dots (plugins/modules/ansible_galaxy_install.py:200-204). The module's
documented return samples show a role version `v0.0.3` (150, 182), but a line
such as `- baztian.xfce, v0.0.3`, `- ns.role, (unknown version)` or
`- ns.role (v0.0.3) was installed successfully` matches neither pattern and is
skipped. The model follows the patterns.

## Modules

| file | module | what it holds |
|---|---|---|
| `wrappers.dfy` | `Wrappers` | `Option` and `Result` |
| `text.dfy` | `Text` | ASCII character classes, `str.splitlines()`, `str.split()`, `in` on strings, `int()` of a digit string |
| `patterns.dfy` | `Patterns` | the five regular expressions, each as two things: a matcher that works the way the regular-expression engine does (greedy runs, alternatives in order), and a grammar predicate saying which lines match and what each group captures. Each pair comes with a lemma proving they agree in both directions. |
| `runner.dfy` | `Runner` | the module parameters, `command_args_formats`, the three command lines, and the `(rc, out, err)` of one run |
| `version.dfy` | `GalaxyVersion` | the version `process`, the locale classifier, the retry, the version tuple and the gate |
| `listing.dfy` | `Listing` | the `_list_element` loop, as a step function, its fold, and a method with a `while` loop proved to compute the fold |
| `install.dfy` | `Install` | the output `process` of `__run__`, as a fold over what the install pattern reports for each line |
| `galaxy_module.dfy` | `GalaxyModule` | the class `AnsibleGalaxyInstall` with the `vars` the module updates |

The command runner is a parameter `cli: (locale, argv) -> Output`, and every
method that runs a command receives it. The locale and the command line are the
runner's input, so the retry's choice of locale can be stated.

Collections are always listed. `__init_module__` guards the collection listing
with `type != "roles"`, but `type` can only be `collection`, `role` or `both`, so
the guard is always true. The model keeps that test as written.
`AnsibleGalaxyInstall.ListInstalled` states the result: collections are listed
whatever the type, and roles are listed unless the type is `collection`.

A failure stops the module at the point where it happens and shows up as an
`Err` result; whatever the module set before that point stays set (the version
gate, for one, fails after `vars.version` and the runner are recorded). This
covers:

- `fail_json`;
- `do_raise`;
- the locale error that escapes the retry;
- a run with `check_rc=True` that exits non-zero;
- the `IndexError` of `splitlines()[0]` on empty output.

## Model

| member | source | states |
|---|---|---|
| Patterns.MatchGalaxyVersionIff | plugins/modules/ansible_galaxy_install.py:198 | The version pattern gives version `v` exactly when the line is `ansible-galaxy`, optionally ` [core`, a space, then `v`. `v` must be three non-empty digit runs joined by dots and must not be followed by another digit. Because the pattern has no end anchor, the optional suffix and bracket never matter. |
| Patterns.MatchListPathIff | plugins/modules/ansible_galaxy_install.py:199 | The header pattern gives path `p` exactly when the line is `# ` followed by `p`, possibly with one final line feed. `p` holds no line feed, since `.` stops at a line feed and `$` also matches before a final one. |
| Patterns.MatchListCollectionIff | plugins/modules/ansible_galaxy_install.py:200 | The collection item pattern gives `(elem, version)` exactly when the line is `ns.name`, whitespace, a run of digits and dots, then only whitespace to the end. |
| Patterns.MatchListRoleIff | plugins/modules/ansible_galaxy_install.py:201 | The role item pattern gives `(elem, version)` exactly when the line is `- ns.name,`, whitespace, a run of digits and dots, then only whitespace. |
| Patterns.MatchInstallIff | plugins/modules/ansible_galaxy_install.py:202-204 | The install pattern reports a collection `(n, v)` exactly for the line `n:v was installed successfully`, and a role `(n, v)` exactly for `- n (v) was installed successfully`. Either may end with one final line feed. |
| Patterns.MatchInstallSound | plugins/modules/ansible_galaxy_install.py:202-204 | Whatever the install matcher reports for a line is an install line for it in the grammar. |
| Text.SplitLines | plugins/modules/ansible_galaxy_install.py:277 | No line produced by `str.splitlines()` contains a line-break character. |
| Text.FirstLine | plugins/modules/ansible_galaxy_install.py:247 | The first line of a text is everything before its first line break. |
| Text.SplitLinesCons | plugins/modules/ansible_galaxy_install.py:277 | A line ended by a one-character break other than `\r` is the first line, and the rest of the text is split on its own. |
| Text.SplitLinesCr | plugins/modules/ansible_galaxy_install.py:277 | A `\r` that is not followed by `\n` ends a line like the other breaks. |
| Text.SplitLinesCrLf | plugins/modules/ansible_galaxy_install.py:277 | `\r\n` ends one line, not two. |
| Text.SplitLinesOne | plugins/modules/ansible_galaxy_install.py:277 | A non-empty text without a break is a single line, so a final break adds no empty line. |
| Runner.FormatBool | plugins/modules/ansible_galaxy_install.py:228-232 | `as_bool(flag)` puts the flag in once when the value is true and not at all when it is false. |
| Runner.InstallFlags | plugins/modules/ansible_galaxy_install.py:320-322 | In the install command line, `--upgrade` occurs once when collections are installed with `state=latest`, and otherwise not at all. `--force` and `--no-deps` each occur once when their parameter is true and not at all otherwise. |
| Runner.InstallArgvShape | plugins/modules/ansible_galaxy_install.py:224-235 | The install command line starts with `ansible-galaxy`, the type token (none for `both`) and `install`. It ends with the name when one is given, and otherwise with `-r requirements_file`. It holds one token per flag asked for, two per option given and one for the name. |
| Runner.ListArgvShape | plugins/modules/ansible_galaxy_install.py:279-280 | The list command line is `ansible-galaxy <type> list [-p dest]`, with no type token for `both`. |
| GalaxyVersion.ProcessVersion | plugins/modules/ansible_galaxy_install.py:244-252 | The version `process` raises the locale error exactly when the classifier holds for `(rc, err)`. Any version it returns is a numeric triple. |
| GalaxyVersion.ProcessVersionOk | plugins/modules/ansible_galaxy_install.py:244-252 | A run yields version `v` exactly when it is not the locale problem, the output has a first line, and that line is a version line for `v`. |
| GalaxyVersion.ProcessVersionNotRecognised | plugins/modules/ansible_galaxy_install.py:247-250 | A run fails with `Unable to determine ansible-galaxy version from: <line>` exactly when its first line is a version line for no version. |
| GalaxyVersion.RecognisedFirstLine | plugins/modules/ansible_galaxy_install.py:247-252 | A first line `ansible-galaxy [core X.Y.Z<tail>` or `ansible-galaxy X.Y.Z<tail>` yields exactly `X.Y.Z`, for any tail that does not start with a digit. |
| GalaxyVersion.ResolveVersion | plugins/modules/ansible_galaxy_install.py:254-261 | The first run uses `C.UTF-8`. There is at most one more run, and it uses `en_US.UTF-8`. A resolved version is a numeric triple. |
| GalaxyVersion.RetryIff | plugins/modules/ansible_galaxy_install.py:254-259 | The second locale is tried exactly when the first run is classified as the locale problem. |
| GalaxyVersion.NoRetry | plugins/modules/ansible_galaxy_install.py:254-257 | Without the locale problem, the outcome of the first run is final, whatever it is. |
| GalaxyVersion.SecondRunFinal | plugins/modules/ansible_galaxy_install.py:258-261 | After the retry nothing is retried. A non-zero exit code fails the module. Otherwise the second run's `process` decides, and the locale problem on that run is raised as it is. |
| GalaxyVersion.ResolvedVersion | plugins/modules/ansible_galaxy_install.py:240-261 | A resolved version is on the first line of the last run's output, and that run was not the locale problem. |
| GalaxyVersion.TripleParts | plugins/modules/ansible_galaxy_install.py:265 | `split('.')` cuts a numeric triple into exactly three digit runs that join back to it. |
| GalaxyVersion.VersionTupleOf | plugins/modules/ansible_galaxy_install.py:265 | The version tuple of `X.Y.Z` is `(int(X), int(Y), int(Z))`. |
| GalaxyVersion.TupleLessIff | plugins/modules/ansible_galaxy_install.py:266 | Python's `<` on integer tuples holds exactly when the tuples first differ at an index where the left-hand one is smaller, or the left-hand tuple is a strict prefix of the right-hand one. |
| GalaxyVersion.GateOfTuple | plugins/modules/ansible_galaxy_install.py:266 | A three-part tuple is below `(2, 11)` exactly when its first part is below 2, or it is 2 and the second part is below 11. |
| GalaxyVersion.GateIff | plugins/modules/ansible_galaxy_install.py:265-267 | Version `X.Y.Z` is refused exactly when `X < 2`, or `X == 2` and `Y < 11`. `Z` never matters. |
| Listing.MatchItemIff | plugins/modules/ansible_galaxy_install.py:302-306 | The item pattern of each kind (collection pattern for collections, role pattern for roles) gives exactly what that kind's grammar assigns. |
| Listing.Step | plugins/modules/ansible_galaxy_install.py:285-299 | One turn of the loop keeps the cursor on a path that has an entry. |
| Listing.ListElement | plugins/modules/ansible_galaxy_install.py:275-300 | The loop of `_list_element` returns the fold of the step function over the processed lines. |
| Listing.ListLine | plugins/modules/ansible_galaxy_install.py:285-299 | The loop body's new `elems_dict` and `current_path` are one step of the fold. |
| Listing.UnusableIsEmpty | plugins/modules/ansible_galaxy_install.py:277 | When the output mentions "None of the provided paths were usable", the listing is empty, whatever else the output holds. |
| Listing.AcceptedHeaderStep | plugins/modules/ansible_galaxy_install.py:285-293 | A header for `dest`, or for any path when `dest` is unset, puts the cursor on its path and gives that path a new empty entry. |
| Listing.RejectedHeaderStep | plugins/modules/ansible_galaxy_install.py:289-291 | A header for a path other than a set `dest` clears the cursor and changes no entry. |
| Listing.HashLineStep | plugins/modules/ansible_galaxy_install.py:285-288 | A `#` line that is not a header changes nothing, the cursor included. |
| Listing.StepKeys | plugins/modules/ansible_galaxy_install.py:285-293 | A line adds a path exactly when it is an accepted header for it. |
| Listing.FoldKeys | plugins/modules/ansible_galaxy_install.py:284-299 | After a run of lines, a path has an entry exactly when it had one before or an accepted header for it is among the lines. |
| Listing.ListedKeys | plugins/modules/ansible_galaxy_install.py:275-300 | A path is a key of the listing exactly when an accepted header for it was seen, so filters never invent paths. |
| Listing.ListedDest | plugins/modules/ansible_galaxy_install.py:289-291 | With `dest` set, `dest` is the only path the listing can hold. |
| Listing.BeforeFirstHeader | plugins/modules/ansible_galaxy_install.py:283-295 | Lines before the first accepted header leave the parser in its initial state. |
| Listing.IgnoredBeforeFirstHeader | plugins/modules/ansible_galaxy_install.py:283-295 | Lines before the first accepted header can be removed without changing the result. |
| Listing.ItemLineStart | plugins/modules/ansible_galaxy_install.py:200-201 | An item line of either kind starts with a word character or `-`, so a `#` line is never an item. |
| Listing.NoCursorFold | plugins/modules/ansible_galaxy_install.py:285-295 | With no cursor, the lines up to the next path header change nothing, `#` lines that are not headers included. |
| Listing.RejectedHeaderDrops | plugins/modules/ansible_galaxy_install.py:285-299 | After a header for another path than `dest`, the items up to the next path header are dropped. |
| Listing.SegmentFold | plugins/modules/ansible_galaxy_install.py:285-299 | With the cursor on `p`, the lines up to the next path header add their items to the entry of `p` and change nothing else. A `#` line that is not a header leaves the cursor where it is. |
| Listing.HeaderSegment | plugins/modules/ansible_galaxy_install.py:285-299 | After an accepted header, its path's entry holds exactly the items of the lines up to the next path header. If no items follow, the entry is empty. |
| Listing.ItemsOfLast | plugins/modules/ansible_galaxy_install.py:296-299 | Within one path, a name is recorded with version `v` exactly when its last item line carries `v` and the name passes the `name` filter. For a duplicate name, the last version wins. |
| Listing.FoldFromLines | plugins/modules/ansible_galaxy_install.py:296-299 | Every recorded item passes the `name` filter and comes from an item line of the listed kind. |
| Listing.ListedItems | plugins/modules/ansible_galaxy_install.py:296-299 | Every item of the listing passes the `name` filter, and its name and version come from an item line of the listed kind in the output. |
| Install.InstallFoldSnoc | plugins/modules/ansible_galaxy_install.py:311-318 | One more output line is one more turn of the loop. |
| Install.CollectionLineStep | plugins/modules/ansible_galaxy_install.py:315-316 | A collection install line records its version under its name in `new_collections`, and leaves `new_roles` unchanged. |
| Install.RoleLineStep | plugins/modules/ansible_galaxy_install.py:317-318 | A role install line records its version under its name in `new_roles`, and leaves `new_collections` unchanged. |
| Install.OtherLineStep | plugins/modules/ansible_galaxy_install.py:312-314 | Any other line changes neither dictionary. |
| Install.NoInstallLines | plugins/modules/ansible_galaxy_install.py:311-318 | Output without a single install line leaves both dictionaries as they were, so empty after `__init_module__`. |
| Install.RecordAllLast | plugins/modules/ansible_galaxy_install.py:315-318 | Recording the reports in order keeps, for each collection and each role, the last version reported. |
| Install.LastInstallLineReports | plugins/modules/ansible_galaxy_install.py:311-312 | A line is the last install line about a collection or role exactly when the pattern's report at that index is the last report about it. |
| Install.NotAboutIff | plugins/modules/ansible_galaxy_install.py:312 | A line is an install line about a given collection or role, in any version, exactly when the pattern reports that collection or role for it. |
| Install.InstalledLast | plugins/modules/ansible_galaxy_install.py:310-318 | After the output, a collection or role has version `v` in its dictionary exactly when the last install line about it carries `v`. |
| GalaxyModule.AnsibleGalaxyInstall.GetAnsibleGalaxyVersion | plugins/modules/ansible_galaxy_install.py:240-261 | The try/retry sequence ends under the locale `ResolveVersion` names last, with the outcome `ResolveVersion` gives. |
| GalaxyModule.AnsibleGalaxyInstall.ListElements | plugins/modules/ansible_galaxy_install.py:279-280 | The list command runs under the runner's locale with the listed type and `dest`, and its output is parsed by `_list_element`. |
| GalaxyModule.AnsibleGalaxyInstall.ListRoles | plugins/modules/ansible_galaxy_install.py:305-306 | `installed_roles` becomes the role listing, and nothing else changes. |
| GalaxyModule.AnsibleGalaxyInstall.ListCollections | plugins/modules/ansible_galaxy_install.py:302-303 | `installed_collections` becomes the collection listing, and nothing else changes. |
| GalaxyModule.AnsibleGalaxyInstall.ListInstalled | plugins/modules/ansible_galaxy_install.py:270-273 | Roles are listed unless the type is `collection`. Collections are listed for every type. |
| GalaxyModule.AnsibleGalaxyInstall.InitWithVersion | plugins/modules/ansible_galaxy_install.py:264-273 | The module records the runner, the version and its tuple. A version below 2.11 fails with "Support for Ansible 2.9 and ansible-base 2.10 has been removed." and leaves the dictionaries and listings alone. Otherwise both install dictionaries are emptied and the listings are taken. |
| GalaxyModule.AnsibleGalaxyInstall.InitModule | plugins/modules/ansible_galaxy_install.py:263-273 | A failure to resolve the version returns that failure and changes nothing. A resolved version leads to the state `InitWithVersion` states. |
| GalaxyModule.AnsibleGalaxyInstall.RecordReport | plugins/modules/ansible_galaxy_install.py:313-318 | One report updates the dictionary of its kind and nothing else. |
| GalaxyModule.AnsibleGalaxyInstall.ProcessInstallOutput | plugins/modules/ansible_galaxy_install.py:310-318 | The loop leaves `new_collections` and `new_roles` at the fold of the install step over the output's lines, and changes nothing else. |
| GalaxyModule.AnsibleGalaxyInstall.Run | plugins/modules/ansible_galaxy_install.py:308-322 | The install runs under the runner's locale with `upgrade` derived from `type` and `state`. A non-zero exit code fails the module without reading the output. Otherwise the output updates the install dictionaries. |
| GalaxyModule.AnsibleGalaxyInstall.Execute | plugins/modules/ansible_galaxy_install.py:327-328 | After a successful run, the version was resolved and `version` holds it. The runner's locale is the last one tried. `installed_collections` is the collection listing, and `installed_roles` is the role listing unless the type is `collection`. For each collection and role, `new_collections` and `new_roles` hold exactly the version of the last install line about it. |

## Left out

- Runner interface: process spawning, binary lookup, setting `LANGUAGE`/`LC_ALL` and `run_command` belong to `CmdRunner` and `ModuleHelper`, which are not part of this model. The runner is a parameter that maps a locale and a command line to `(rc, out, err)`. `check_rc=True` is modelled as failing before the output is processed.
- Output reporting: `run_info` at high verbosity (323-324), the `changed` flag that `ModuleHelper` derives from `vars` set with `change=True` (268-269), and `output_params` belong to the module framework. The dictionaries that decide the flag are modelled; the flag itself is not.
- Argument validation (208-222) is done by the framework. The model assumes its result, a `type` among the three choices, as a precondition of the methods that depend on it. `mutually_exclusive`, `required_one_of` and `required_if` are not modelled.
- Regular expressions and Unicode: Python's `re` engine is not modelled. The five patterns are hand-written matchers with ASCII classes, whereas `\w`, `\d` and `\s` match Unicode characters on Python 3 strings. `str.splitlines()` does use its full set of line breaks.
- Dictionary insertion order of `elems_dict` and of the install dictionaries is not modelled; they are Dafny maps.
- Failure effects: the messages of `fail_json` and `do_raise` are values. The process exit, the JSON result and the concrete exception types are not modelled.
- GalaxyVersion.VersionTuple: requires a numeric triple. `ProcessVersion` only returns such versions, so `int()` never fails in the model.
- Runner.InstallFlags: requires that `dest`, `requirements_file` and `name` are none of the three flags. A value such as `--force` would add one more occurrence of that token to the command line.
- GalaxyModule.AnsibleGalaxyInstall.Execute: models `__init_module__` followed by `__run__`. `__quit_module__` and the framework's output step are not modelled.
