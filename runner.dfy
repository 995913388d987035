/** What the module asks of its command runner: the `command_args_formats` of
    `AnsibleGalaxyInstall` (plugins/modules/ansible_galaxy_install.py:224-235), the
    three command lines it builds from them, and the `(rc, out, err)` a run of
    `ansible-galaxy` gives back. The runner itself, which spawns the process, is a
    parameter of the model: a function from the forced locale and the command line
    to the output. */
module Runner {
  import opened Wrappers

  /** What one run of the command gives back. */
  datatype Output = Output(rc: int, out: string, err: string)

  /** `ansible-galaxy` run under a locale (`LANGUAGE`/`LC_ALL`) with a command line. */
  type Cli = (string, seq<string>) -> Output

  /** The ways a run of the module stops with an error. */
  datatype Failure =
    | UnsupportedLocale(err: string)       // raised by the version `process`
    | VersionOutputEmpty                   // `out.splitlines()[0]` on no lines
    | VersionNotRecognised(msg: string)    // `do_raise` in the version `process`
    | CommandFailed(rc: int, err: string)  // a run with `check_rc=True` and `rc != 0`
    | Unsupported(msg: string)             // the `fail_json` of the version gate

  const Command := "ansible-galaxy"
  const CollectionType := "collection"
  const RoleType := "role"
  const BothType := "both"

  /** The module parameters the command lines are made of. */
  datatype Params = Params(
    galaxyType: string,
    state: string,
    name: Option<string>,
    requirementsFile: Option<string>,
    dest: Option<string>,
    force: bool,
    noDeps: bool)

  /** The `choices` of `type`. */
  predicate IsGalaxyType(t: string) {
    t == CollectionType || t == RoleType || t == BothType
  }

  /** The `type` format: no token for `both`, the type itself otherwise. */
  function FormatType(v: string): seq<string> {
    if v == BothType then [] else [v]
  }

  /** `cmd_runner_fmt.as_bool(flag)`: the flag when the value is true. */
  function FormatBool(flag: string, v: bool): (r: seq<string>)
    ensures Count(r, flag) == (if v then 1 else 0)
  {
    if v then [flag] else []
  }

  /** `cmd_runner_fmt.as_opt_val(opt)`: the option and its value, nothing for `None`. */
  function FormatOptVal(opt: string, v: Option<string>): seq<string> {
    match v
    case None => []
    case Some(x) => [opt, x]
  }

  /** `cmd_runner_fmt.as_list()` of a string: the string, nothing for `None`. */
  function FormatList(v: Option<string>): seq<string> {
    match v
    case None => []
    case Some(x) => [x]
  }

  /** The occurrences of `w` in `s`. */
  function Count(s: seq<string>, w: string): nat {
    if s == [] then 0 else (if s[0] == w then 1 else 0) + Count(s[1..], w)
  }

  lemma {:induction false} CountConcat(a: seq<string>, b: seq<string>, w: string)
    ensures Count(a + b, w) == Count(a, w) + Count(b, w)
  {
    if a != [] {
      assert (a + b)[1..] == a[1..] + b;
      CountConcat(a[1..], b, w);
    } else {
      assert a + b == b;
    }
  }

  lemma CountSingle(x: string, w: string)
    ensures Count([x], w) == (if x == w then 1 else 0)
  {
    assert [x][1..] == [];
  }

  /** `runner("version")`: the fixed `--version` format. */
  function VersionArgv(): seq<string> {
    [Command] + ["--version"]
  }

  /** `runner('type galaxy_cmd dest')` with `galaxy_cmd='list'`. */
  function ListArgv(galaxyType: string, dest: Option<string>): seq<string> {
    [Command] + FormatType(galaxyType) + ["list"] + FormatOptVal("-p", dest)
  }

  /** `--upgrade` is asked for exactly when collections are installed with
      `state=latest`. */
  function Upgrade(p: Params): bool {
    p.galaxyType == CollectionType && p.state == "latest"
  }

  /** `runner("type galaxy_cmd upgrade force no_deps dest requirements_file name")`
      with `galaxy_cmd='install'`, in that order. */
  function InstallArgv(p: Params, upgrade: bool): seq<string> {
    InstallCommand(p) + InstallFlagArgs(p, upgrade) + InstallValues(p)
  }

  /** The command, the `type` and `galaxy_cmd` formats. */
  function InstallCommand(p: Params): seq<string> {
    [Command] + FormatType(p.galaxyType) + ["install"]
  }

  /** The `upgrade`, `force` and `no_deps` formats. */
  function InstallFlagArgs(p: Params, upgrade: bool): seq<string> {
    FormatBool("--upgrade", upgrade) + FormatBool("--force", p.force) + FormatBool("--no-deps", p.noDeps)
  }

  /** The `dest`, `requirements_file` and `name` formats. */
  function InstallValues(p: Params): seq<string> {
    FormatOptVal("-p", p.dest) + FormatOptVal("-r", p.requirementsFile) + FormatList(p.name)
  }

  /** An option value or name that is none of the three flags. */
  predicate NotAFlag(v: Option<string>) {
    v.None? || (v.value != "--upgrade" && v.value != "--force" && v.value != "--no-deps")
  }

  /** `flag` is one of the three flags and its parameter asks for it. */
  predicate Asked(p: Params, upgrade: bool, flag: string) {
    (flag == "--upgrade" && upgrade) || (flag == "--force" && p.force) || (flag == "--no-deps" && p.noDeps)
  }

  predicate IsFlag(w: string) {
    w == "--upgrade" || w == "--force" || w == "--no-deps"
  }

  lemma CountAbsent(s: seq<string>, w: string)
    requires forall i :: 0 <= i < |s| ==> s[i] != w
    ensures Count(s, w) == 0
  {
    if s != [] {
      assert forall i :: 0 <= i < |s[1..]| ==> s[1..][i] == s[i + 1];
      CountAbsent(s[1..], w);
    }
  }

  lemma CommandHasNoFlag(p: Params, flag: string)
    requires IsGalaxyType(p.galaxyType) && IsFlag(flag)
    ensures Count(InstallCommand(p), flag) == 0
  {
    CountAbsent(InstallCommand(p), flag);
  }

  lemma ValuesHaveNoFlag(p: Params, flag: string)
    requires NotAFlag(p.dest) && NotAFlag(p.requirementsFile) && NotAFlag(p.name) && IsFlag(flag)
    ensures Count(InstallValues(p), flag) == 0
  {
    CountAbsent(InstallValues(p), flag);
  }

  lemma FlagArgsCount(p: Params, upgrade: bool, flag: string)
    requires IsFlag(flag)
    ensures Count(InstallFlagArgs(p, upgrade), flag)
         == (if Asked(p, upgrade, flag) then 1 else 0)
  {
    CountConcat(FormatBool("--upgrade", upgrade) + FormatBool("--force", p.force), FormatBool("--no-deps", p.noDeps), flag);
    CountConcat(FormatBool("--upgrade", upgrade), FormatBool("--force", p.force), flag);
    FormatBoolOther("--upgrade", upgrade, flag);
    FormatBoolOther("--force", p.force, flag);
    FormatBoolOther("--no-deps", p.noDeps, flag);
  }

  lemma FormatBoolOther(flag: string, v: bool, w: string)
    ensures flag != w ==> Count(FormatBool(flag, v), w) == 0
  {
    if v {
      CountSingle(flag, w);
    }
  }

  /** The occurrences of a flag in the install command line are those of its own
      format. */
  lemma InstallFlagCount(p: Params, upgrade: bool, flag: string)
    requires IsGalaxyType(p.galaxyType) && NotAFlag(p.dest) && NotAFlag(p.requirementsFile) && NotAFlag(p.name)
    requires IsFlag(flag)
    ensures Count(InstallArgv(p, upgrade), flag)
         == (if Asked(p, upgrade, flag) then 1 else 0)
  {
    CountConcat(InstallCommand(p) + InstallFlagArgs(p, upgrade), InstallValues(p), flag);
    CountConcat(InstallCommand(p), InstallFlagArgs(p, upgrade), flag);
    CommandHasNoFlag(p, flag);
    ValuesHaveNoFlag(p, flag);
    FlagArgsCount(p, upgrade, flag);
  }

  /** `--upgrade`, `--force` and `--no-deps` each occur once in the install command
      line when asked for and not at all otherwise, provided no user-supplied value
      is itself one of those flags. */
  lemma InstallFlags(p: Params)
    requires IsGalaxyType(p.galaxyType) && NotAFlag(p.dest) && NotAFlag(p.requirementsFile) && NotAFlag(p.name)
    ensures Count(InstallArgv(p, Upgrade(p)), "--upgrade")
         == (if p.galaxyType == CollectionType && p.state == "latest" then 1 else 0)
    ensures Count(InstallArgv(p, Upgrade(p)), "--force") == (if p.force then 1 else 0)
    ensures Count(InstallArgv(p, Upgrade(p)), "--no-deps") == (if p.noDeps then 1 else 0)
  {
    InstallFlagCount(p, Upgrade(p), "--upgrade");
    InstallFlagCount(p, Upgrade(p), "--force");
    InstallFlagCount(p, Upgrade(p), "--no-deps");
  }

  /** The list command line names the listed type, except for `both`, and passes
      `dest` with `-p`. */
  lemma ListArgvShape(galaxyType: string, dest: Option<string>)
    ensures galaxyType != BothType && dest.Some?
        ==> ListArgv(galaxyType, dest) == [Command, galaxyType, "list", "-p", dest.value]
    ensures galaxyType != BothType && dest.None? ==> ListArgv(galaxyType, dest) == [Command, galaxyType, "list"]
    ensures galaxyType == BothType ==> ListArgv(galaxyType, dest) == [Command, "list"] + FormatOptVal("-p", dest)
  {
  }
  /** The install command line starts with the command, the type token (none for
      `both`) and `install`; it ends with `name` when one is given, and otherwise
      with `-r requirements_file`; and it holds one token per flag asked for, two
      per option given and one for the name. */
  lemma InstallArgvShape(p: Params, upgrade: bool)
    ensures var argv := InstallArgv(p, upgrade);
            p.galaxyType != BothType ==> |argv| >= 3 && argv[..3] == [Command, p.galaxyType, "install"]
    ensures var argv := InstallArgv(p, upgrade);
            p.galaxyType == BothType ==> |argv| >= 2 && argv[..2] == [Command, "install"]
    ensures var argv := InstallArgv(p, upgrade);
            p.name.Some? ==> argv[|argv| - 1] == p.name.value
    ensures var argv := InstallArgv(p, upgrade);
            p.name.None? && p.requirementsFile.Some?
            ==> |argv| >= 2 && argv[|argv| - 2..] == ["-r", p.requirementsFile.value]
    ensures |InstallArgv(p, upgrade)|
         == (if p.galaxyType == BothType then 2 else 3)
            + (if upgrade then 1 else 0) + (if p.force then 1 else 0) + (if p.noDeps then 1 else 0)
            + (if p.dest.Some? then 2 else 0) + (if p.requirementsFile.Some? then 2 else 0)
            + (if p.name.Some? then 1 else 0)
  {
    InstallCommandOf(p);
    InstallArgvHead(p, upgrade);
    InstallArgvTail(p, upgrade);
  }

  lemma InstallArgvHead(p: Params, upgrade: bool)
    ensures |InstallArgv(p, upgrade)| >= |InstallCommand(p)|
    ensures InstallArgv(p, upgrade)[..|InstallCommand(p)|] == InstallCommand(p)
  {
    PrefixOfConcat3(InstallCommand(p), InstallFlagArgs(p, upgrade), InstallValues(p));
  }

  lemma InstallCommandOf(p: Params)
    ensures InstallCommand(p) == if p.galaxyType == BothType then [Command, "install"] else [Command, p.galaxyType, "install"]
  {
    if p.galaxyType == BothType {
      assert FormatType(p.galaxyType) == [];
      assert [Command] + [] + ["install"] == [Command, "install"];
    } else {
      assert [Command] + [p.galaxyType] + ["install"] == [Command, p.galaxyType, "install"];
    }
  }

  lemma PrefixOfConcat3(a: seq<string>, b: seq<string>, c: seq<string>)
    ensures (a + b + c)[..|a|] == a
  {
  }

  lemma SuffixOfConcat(a: seq<string>, b: seq<string>, k: nat)
    requires k <= |b|
    ensures (a + b)[|a + b| - k..] == b[|b| - k..]
  {
  }

  lemma InstallArgvTail(p: Params, upgrade: bool)
    ensures |InstallArgv(p, upgrade)| == |InstallCommand(p)| + |InstallFlagArgs(p, upgrade)| + |InstallValues(p)|
    ensures |InstallFlagArgs(p, upgrade)| == (if upgrade then 1 else 0) + (if p.force then 1 else 0) + (if p.noDeps then 1 else 0)
    ensures |InstallValues(p)|
         == (if p.dest.Some? then 2 else 0) + (if p.requirementsFile.Some? then 2 else 0) + (if p.name.Some? then 1 else 0)
    ensures p.name.Some? ==> InstallArgv(p, upgrade)[|InstallArgv(p, upgrade)| - 1] == p.name.value
    ensures p.name.None? && p.requirementsFile.Some?
            ==> InstallArgv(p, upgrade)[|InstallArgv(p, upgrade)| - 2..] == ["-r", p.requirementsFile.value]
  {
    var head := InstallCommand(p) + InstallFlagArgs(p, upgrade);
    var values := InstallValues(p);
    if p.name.Some? {
      SuffixOfConcat(head, values, 1);
    } else if p.requirementsFile.Some? {
      SuffixOfConcat(head, values, 2);
      SuffixOfConcat(FormatOptVal("-p", p.dest), FormatOptVal("-r", p.requirementsFile), 2);
    }
  }
}
