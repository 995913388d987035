/** The `AnsibleGalaxyInstall` module object
    (plugins/modules/ansible_galaxy_install.py:197-324): its module parameters, the
    runner it keeps, and the `vars` it fills in `__init_module__` and `__run__`.
    The command runner is passed to each method as a function from the forced
    locale and the command line to the command's output. */
module GalaxyModule {
  import opened Wrappers
  import opened Text
  import opened Patterns
  import opened Runner
  import opened GalaxyVersion
  import opened Listing
  import opened Install

  /** The type the collection listing is guarded against; no `type` choice equals
      it, so collections are listed for every type. */
  const RolesGuard := "roles"

  class AnsibleGalaxyInstall {
    /** The module parameters. */
    const params: Params
    /** The locale of `self.runner`, once `__init_module__` has made it. */
    var runnerLocale: Option<string>
    /** `vars.version` */
    var version: Option<string>
    /** `self.ansible_version` */
    var ansibleVersion: Option<seq<int>>
    /** `vars.new_collections` and `vars.new_roles` */
    var newCollections: map<string, string>
    var newRoles: map<string, string>
    /** `vars.installed_roles` and `vars.installed_collections` */
    var installedRoles: Option<Elements>
    var installedCollections: Option<Elements>

    constructor (p: Params)
      ensures params == p && runnerLocale == None && version == None && ansibleVersion == None
      ensures newCollections == map[] && newRoles == map[]
      ensures installedRoles == None && installedCollections == None
    {
      params := p;
      runnerLocale := None;
      version := None;
      ansibleVersion := None;
      newCollections := map[];
      newRoles := map[];
      installedRoles := None;
      installedCollections := None;
    }

    /** The dest and name filters of the listing of `kind`. */
    function ListQuery(kind: Kind): (q: Query)
      ensures q.kind == kind && q.dest == params.dest && q.name == params.name
    {
      Query(kind, params.dest, params.name)
    }

    /** `_get_ansible_galaxy_version`: the locale of the runner it returns and the
        version, or what it raised. */
    method GetAnsibleGalaxyVersion(cli: Cli) returns (locale: string, outcome: Result<string, Failure>)
      ensures var res := ResolveVersion(cli);
              locale == res.locales[|res.locales| - 1] && outcome == res.outcome
    {
      locale := FirstLocale;
      outcome := ProcessVersion(cli(locale, VersionArgv()));
      if outcome.Err? && outcome.error.UnsupportedLocale? {
        locale := SecondLocale;
        var o := cli(locale, VersionArgv());
        if o.rc != 0 {
          outcome := Err(CommandFailed(o.rc, o.err));
        } else {
          outcome := ProcessVersion(o);
        }
      }
    }

    /** `_list_element` for `kind`, run through the runner of the given locale. */
    method ListElements(cli: Cli, locale: string, kind: Kind) returns (elems: Elements)
      ensures elems == Listed(ListQuery(kind), cli(locale, ListArgv(TypeName(kind), params.dest)).out)
    {
      var o := cli(locale, ListArgv(TypeName(kind), params.dest));
      elems := ListElement(ListQuery(kind), o);
    }

    /** `__init_module__`: resolve the version, refuse one older than 2.11, empty
        the install dictionaries and list what is installed: roles unless the type
        is `collection`, and collections for every type. */
    method InitModule(cli: Cli) returns (r: Result<(), Failure>)
      requires IsGalaxyType(params.galaxyType)
      modifies this
      ensures var res := ResolveVersion(cli);
              res.outcome.Err? ==> r == Err(res.outcome.error) && unchanged(this)
      ensures var res := ResolveVersion(cli);
              res.outcome.Ok? ==> InitializedWith(cli, res.locales[|res.locales| - 1], res.outcome.value, r)
    {
      var locale, outcome := GetAnsibleGalaxyVersion(cli);
      if outcome.Err? {
        return Err(outcome.error);
      }
      r := InitWithVersion(cli, locale, outcome.value);
    }

    /** The state `__init_module__` leaves once the runner of `locale` has reported
        version `v`, and what it returns. */
    twostate predicate InitializedWith(cli: Cli, locale: string, v: string, new r: Result<(), Failure>)
      requires IsNumericTriple(v)
      reads this
    {
      && runnerLocale == Some(locale)
      && version == Some(v)
      && ansibleVersion == Some(VersionTuple(v))
      && (IsTooOld(v) ==>
            && r == Err(Unsupported(TooOldText))
            && newCollections == old(newCollections) && newRoles == old(newRoles)
            && installedRoles == old(installedRoles) && installedCollections == old(installedCollections))
      && (!IsTooOld(v) ==>
            && r == Ok(())
            && newCollections == map[] && newRoles == map[]
            && installedRoles == (if params.galaxyType != CollectionType
                                  then Some(Listed(ListQuery(RoleKind), cli(locale, ListArgv(RoleType, params.dest)).out))
                                  else old(installedRoles))
            && installedCollections
               == Some(Listed(ListQuery(CollectionKind), cli(locale, ListArgv(CollectionType, params.dest)).out)))
    }

    /** `__init_module__` after `_get_ansible_galaxy_version` has returned. */
    method InitWithVersion(cli: Cli, locale: string, v: string) returns (r: Result<(), Failure>)
      requires IsGalaxyType(params.galaxyType) && IsNumericTriple(v)
      modifies this
      ensures InitializedWith(cli, locale, v, r)
    {
      runnerLocale := Some(locale);
      version := Some(v);
      var t := VersionTuple(v);
      ansibleVersion := Some(t);
      if TupleLess(t, MinimumVersion) {
        return Err(Unsupported(TooOldText));
      }
      newCollections := map[];
      newRoles := map[];
      ListInstalled(cli, locale);
      r := Ok(());
    }

    /** The end of `__init_module__`: the listings of what is installed, roles
        unless the type is `collection`, and collections always, since the guard
        compares the type with a value it never takes. */
    method ListInstalled(cli: Cli, locale: string)
      requires IsGalaxyType(params.galaxyType)
      modifies this
      ensures installedRoles == (if params.galaxyType != CollectionType
                                 then Some(Listed(ListQuery(RoleKind), cli(locale, ListArgv(RoleType, params.dest)).out))
                                 else old(installedRoles))
      ensures installedCollections
              == Some(Listed(ListQuery(CollectionKind), cli(locale, ListArgv(CollectionType, params.dest)).out))
      ensures runnerLocale == old(runnerLocale) && version == old(version) && ansibleVersion == old(ansibleVersion)
      ensures newCollections == old(newCollections) && newRoles == old(newRoles)
    {
      if params.galaxyType != CollectionType {
        ListRoles(cli, locale);
      }
      if params.galaxyType != RolesGuard {
        ListCollections(cli, locale);
      }
    }

    /** `vars.installed_roles = self._list_roles()` */
    method ListRoles(cli: Cli, locale: string)
      modifies this
      ensures installedRoles == Some(Listed(ListQuery(RoleKind), cli(locale, ListArgv(RoleType, params.dest)).out))
      ensures installedCollections == old(installedCollections)
      ensures runnerLocale == old(runnerLocale) && version == old(version) && ansibleVersion == old(ansibleVersion)
      ensures newCollections == old(newCollections) && newRoles == old(newRoles)
    {
      var roles := ListElements(cli, locale, RoleKind);
      installedRoles := Some(roles);
    }

    /** `vars.installed_collections = self._list_collections()` */
    method ListCollections(cli: Cli, locale: string)
      modifies this
      ensures installedCollections
              == Some(Listed(ListQuery(CollectionKind), cli(locale, ListArgv(CollectionType, params.dest)).out))
      ensures installedRoles == old(installedRoles)
      ensures runnerLocale == old(runnerLocale) && version == old(version) && ansibleVersion == old(ansibleVersion)
      ensures newCollections == old(newCollections) && newRoles == old(newRoles)
    {
      var collections := ListElements(cli, locale, CollectionKind);
      installedCollections := Some(collections);
    }

    /** The output `process` of `__run__`: record every install line of `out`. */
    method ProcessInstallOutput(out: string)
      modifies this
      ensures Installs(newCollections, newRoles) == InstallFold(Installs(old(newCollections), old(newRoles)), SplitLines(out))
      ensures runnerLocale == old(runnerLocale) && version == old(version) && ansibleVersion == old(ansibleVersion)
      ensures installedRoles == old(installedRoles) && installedCollections == old(installedCollections)
    {
      var lines := SplitLines(out);
      ghost var start := Installs(newCollections, newRoles);
      var i := 0;
      while i < |lines|
        invariant 0 <= i <= |lines|
        invariant Installs(newCollections, newRoles) == InstallFold(start, lines[..i])
        invariant runnerLocale == old(runnerLocale) && version == old(version) && ansibleVersion == old(ansibleVersion)
        invariant installedRoles == old(installedRoles) && installedCollections == old(installedCollections)
      {
        var line := lines[i];
        InstallFoldSnoc(start, lines[..i], line);
        assert lines[..i + 1] == lines[..i] + [line];
        var m := MatchInstall(line);
        RecordReport(m);
        i := i + 1;
      }
      assert lines[..|lines|] == lines;
    }

    /** The body of the output loop for one line the install pattern reports as `m`. */
    method RecordReport(m: Option<Installed>)
      modifies this
      ensures Installs(newCollections, newRoles) == Record(Installs(old(newCollections), old(newRoles)), m)
      ensures runnerLocale == old(runnerLocale) && version == old(version) && ansibleVersion == old(ansibleVersion)
      ensures installedRoles == old(installedRoles) && installedCollections == old(installedCollections)
    {
      if m.None? {
        return;
      }
      match m.value
      case CollectionInstalled(n, v) =>
        newCollections := newCollections[n := v];
      case RoleInstalled(n, v) =>
        newRoles := newRoles[n := v];
    }

    /** `__run__`: install with `--upgrade` when collections are installed with
        `state=latest`. The runner checks the exit code, so a failing install ends
        the module before its output is read. */
    method Run(cli: Cli) returns (r: Result<(), Failure>)
      requires runnerLocale.Some?
      modifies this
      ensures var o := cli(old(runnerLocale.value), InstallArgv(params, Upgrade(params)));
              o.rc != 0 ==> r == Err(CommandFailed(o.rc, o.err)) && unchanged(this)
      ensures var o := cli(old(runnerLocale.value), InstallArgv(params, Upgrade(params)));
              o.rc == 0 ==>
                && r == Ok(())
                && Installs(newCollections, newRoles)
                   == InstallFold(Installs(old(newCollections), old(newRoles)), SplitLines(o.out))
      ensures runnerLocale == old(runnerLocale) && version == old(version) && ansibleVersion == old(ansibleVersion)
      ensures installedRoles == old(installedRoles) && installedCollections == old(installedCollections)
    {
      var upgrade := Upgrade(params);
      var o := cli(runnerLocale.value, InstallArgv(params, upgrade));
      if o.rc != 0 {
        return Err(CommandFailed(o.rc, o.err));
      }
      ProcessInstallOutput(o.out);
      r := Ok(());
    }

    /** A whole run of the module: `__init_module__`, then `__run__`. After a
        successful run the install dictionaries hold exactly, per collection and per
        role, the version of the last install line about it. */
    method Execute(cli: Cli) returns (r: Result<(), Failure>)
      requires IsGalaxyType(params.galaxyType)
      modifies this
      ensures r.Ok? ==> runnerLocale.Some?
      ensures r.Ok? ==>
                var o := cli(runnerLocale.value, InstallArgv(params, Upgrade(params)));
                forall it :: Holds(Installs(newCollections, newRoles), it)
                             <==> exists i :: LastInstallLine(SplitLines(o.out), it, i)
      ensures r.Ok? ==>
                var res := ResolveVersion(cli);
                && res.outcome.Ok?
                && version == Some(res.outcome.value)
                && runnerLocale == Some(res.locales[|res.locales| - 1])
      ensures r.Ok? ==>
                installedCollections
                == Some(Listed(ListQuery(CollectionKind), cli(runnerLocale.value, ListArgv(CollectionType, params.dest)).out))
      ensures r.Ok? && params.galaxyType != CollectionType ==>
                installedRoles
                == Some(Listed(ListQuery(RoleKind), cli(runnerLocale.value, ListArgv(RoleType, params.dest)).out))
    {
      r := InitModule(cli);
      if r.Err? {
        return;
      }
      assert Installs(newCollections, newRoles) == NoInstalls && runnerLocale.Some?;
      r := Run(cli);
      if r.Ok? {
        var o := cli(runnerLocale.value, InstallArgv(params, Upgrade(params)));
        ghost var lines := SplitLines(o.out);
        assert Installs(newCollections, newRoles) == InstallFold(NoInstalls, lines);
        forall it ensures Holds(Installs(newCollections, newRoles), it)
                          <==> exists i :: LastInstallLine(lines, it, i) {
          InstalledLast(lines, it);
        }
      }
    }
  }
}
