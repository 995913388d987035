/** The output `process` of `__run__` (plugins/modules/ansible_galaxy_install.py:310-318):
    every line of the install output that matches `_RE_INSTALL_OUTPUT` records the
    installed collection or role with its version; other lines are skipped. The
    loop is given as a step function and its left fold; the method of the module
    class that runs it is proved to compute the fold. */
module Install {
  import opened Wrappers
  import opened Text
  import opened Patterns

  /** `new_collections` and `new_roles`. */
  datatype Installs = Installs(collections: map<string, string>, roles: map<string, string>)

  const NoInstalls := Installs(map[], map[])

  /** What `_RE_INSTALL_OUTPUT` reports for each line. */
  function Reports(lines: seq<string>): (ms: seq<Option<Installed>>)
    ensures |ms| == |lines|
    decreases |lines|
  {
    if lines == [] then [] else Reports(lines[..|lines| - 1]) + [MatchInstall(lines[|lines| - 1])]
  }

  lemma ReportsAt(lines: seq<string>, i: nat)
    requires i < |lines|
    ensures Reports(lines)[i] == MatchInstall(lines[i])
    decreases |lines|
  {
    if i < |lines| - 1 {
      ReportsAt(lines[..|lines| - 1], i);
    }
  }

  /** The dictionaries after a line that the pattern reports as `m`. */
  function Record(acc: Installs, m: Option<Installed>): Installs {
    match m
    case None => acc
    case Some(CollectionInstalled(n, v)) => acc.(collections := acc.collections[n := v])
    case Some(RoleInstalled(n, v)) => acc.(roles := acc.roles[n := v])
  }

  /** One turn of the loop. */
  function InstallStep(acc: Installs, line: string): Installs {
    Record(acc, MatchInstall(line))
  }

  /** The reports of a sequence of lines recorded one after the other. */
  function RecordAll(acc: Installs, ms: seq<Option<Installed>>): Installs
    decreases |ms|
  {
    if ms == [] then acc else Record(RecordAll(acc, ms[..|ms| - 1]), ms[|ms| - 1])
  }

  /** The loop over `lines` from `acc`. */
  function InstallFold(acc: Installs, lines: seq<string>): Installs {
    RecordAll(acc, Reports(lines))
  }

  /** One more line is one more turn of the loop. */
  lemma InstallFoldSnoc(acc: Installs, lines: seq<string>, line: string)
    ensures InstallFold(acc, lines + [line]) == InstallStep(InstallFold(acc, lines), line)
  {
    assert (lines + [line])[..|lines|] == lines;
    assert Reports(lines + [line]) == Reports(lines) + [MatchInstall(line)];
    assert (Reports(lines) + [MatchInstall(line)])[..|lines|] == Reports(lines);
  }

  /** A line reporting an installed collection records its version under its name
      in `new_collections` and leaves `new_roles` alone. */
  lemma CollectionLineStep(acc: Installs, line: string, n: string, v: string)
    requires IsInstallLine(line, CollectionInstalled(n, v))
    ensures InstallStep(acc, line) == Installs(acc.collections[n := v], acc.roles)
  {
    MatchInstallIff(line, CollectionInstalled(n, v));
  }

  /** A line reporting an installed role records its version under its name in
      `new_roles` and leaves `new_collections` alone. */
  lemma RoleLineStep(acc: Installs, line: string, n: string, v: string)
    requires IsInstallLine(line, RoleInstalled(n, v))
    ensures InstallStep(acc, line) == Installs(acc.collections, acc.roles[n := v])
  {
    MatchInstallIff(line, RoleInstalled(n, v));
  }

  /** Any other line changes neither dictionary. */
  lemma OtherLineStep(acc: Installs, line: string)
    requires forall r :: !IsInstallLine(line, r)
    ensures InstallStep(acc, line) == acc
  {
    if MatchInstall(line).Some? {
      MatchInstallSound(line);
    }
  }

  /** Output without a single install line leaves both dictionaries as they were,
      so empty after `__init_module__`. */
  lemma {:induction false} NoInstallLines(acc: Installs, lines: seq<string>)
    requires forall i, r :: 0 <= i < |lines| ==> !IsInstallLine(lines[i], r)
    ensures InstallFold(acc, lines) == acc
    decreases |lines|
  {
    if lines != [] {
      var pre := lines[..|lines| - 1];
      assert forall i, r :: 0 <= i < |pre| ==> !IsInstallLine(pre[i], r) by {
        forall i, r | 0 <= i < |pre| ensures !IsInstallLine(pre[i], r) {
          assert pre[i] == lines[i];
        }
      }
      NoInstallLines(acc, pre);
      OtherLineStep(acc, lines[|lines| - 1]);
      InstallFoldSnoc(acc, pre, lines[|lines| - 1]);
      assert pre + [lines[|lines| - 1]] == lines;
    }
  }

  // ---------------------------------------------------------------------------
  // The last report wins
  // ---------------------------------------------------------------------------

  /** `r` with its version replaced by `w`: the same collection or role. */
  function WithVersion(r: Installed, w: string): Installed {
    match r
    case CollectionInstalled(n, _) => CollectionInstalled(n, w)
    case RoleInstalled(n, _) => RoleInstalled(n, w)
  }

  /** `r` is what the dictionaries hold for its collection or role. */
  predicate Holds(acc: Installs, r: Installed) {
    match r
    case CollectionInstalled(n, v) => n in acc.collections && acc.collections[n] == v
    case RoleInstalled(n, v) => n in acc.roles && acc.roles[n] == v
  }

  /** No report after index `i` is about the collection or role of `r`. */
  ghost predicate NoLaterReport(ms: seq<Option<Installed>>, r: Installed, i: int) {
    forall j :: 0 <= i < j < |ms| ==> !SameTarget(ms[j], r)
  }

  /** `m` reports the collection or role of `r`, with whatever version. */
  predicate SameTarget(m: Option<Installed>, r: Installed) {
    m.Some? && WithVersion(m.value, "") == WithVersion(r, "")
  }

  /** The report at index `i` is the last one about the collection or role of `r`,
      and it is `r`. */
  ghost predicate LastReportAt(ms: seq<Option<Installed>>, r: Installed, i: int) {
    0 <= i < |ms| && ms[i] == Some(r) && NoLaterReport(ms, r, i)
  }

  ghost predicate LastReportIs(ms: seq<Option<Installed>>, r: Installed) {
    exists i :: LastReportAt(ms, r, i)
  }

  /** Recording reports keeps, per collection and per role, the last version reported. */
  lemma {:induction false} RecordAllLast(ms: seq<Option<Installed>>, r: Installed)
    ensures Holds(RecordAll(NoInstalls, ms), r) <==> LastReportIs(ms, r)
    decreases |ms|
  {
    if ms != [] {
      var pre := ms[..|ms| - 1];
      var last := |ms| - 1;
      RecordAllLast(pre, r);
      if SameTarget(ms[last], r) {
        if ms[last] == Some(r) {
          assert LastReportAt(ms, r, last);
        }
        if LastReportIs(ms, r) {
          var i :| LastReportAt(ms, r, i);
          assert i == last;
        }
      } else {
        if LastReportIs(pre, r) {
          var i :| LastReportAt(pre, r, i);
          assert ms[i] == pre[i];
          assert LastReportAt(ms, r, i);
        }
        if LastReportIs(ms, r) {
          var i :| LastReportAt(ms, r, i);
          assert i < last;
          assert ms[i] == pre[i];
          assert LastReportAt(pre, r, i);
        }
      }
    }
  }

  /** Line `i` is, by the grammar of `_RE_INSTALL_OUTPUT`, the last install line of
      `lines` about the collection or role of `r`, and it reports `r`. */
  ghost predicate LastInstallLine(lines: seq<string>, r: Installed, i: int) {
    0 <= i < |lines| && IsInstallLine(lines[i], r)
    && forall j, w :: i < j < |lines| ==> !IsInstallLine(lines[j], WithVersion(r, w))
  }

  lemma LastInstallLineReports(lines: seq<string>, r: Installed, i: int)
    ensures LastInstallLine(lines, r, i) <==> LastReportAt(Reports(lines), r, i)
  {
    var ms := Reports(lines);
    if 0 <= i < |lines| {
      ReportsAt(lines, i);
      MatchInstallIff(lines[i], r);
      forall j | i < j < |lines|
        ensures (forall w :: !IsInstallLine(lines[j], WithVersion(r, w))) <==> !SameTarget(ms[j], r)
      {
        ReportsAt(lines, j);
        NotAboutIff(lines[j], r);
      }
    }
  }

  /** A line is an install line about the collection or role of `r` exactly when
      the pattern reports that collection or role for it. */
  lemma NotAboutIff(line: string, r: Installed)
    ensures (forall w :: !IsInstallLine(line, WithVersion(r, w))) <==> !SameTarget(MatchInstall(line), r)
  {
    var m := MatchInstall(line);
    if SameTarget(m, r) {
      var w := m.value.version;
      assert WithVersion(r, w) == m.value by {
        assert WithVersion(m.value, "") == WithVersion(r, "");
      }
      MatchInstallIff(line, WithVersion(r, w));
    }
    forall w | IsInstallLine(line, WithVersion(r, w)) ensures SameTarget(m, r) {
      MatchInstallIff(line, WithVersion(r, w));
    }
  }

  /** After the install output, a collection (or role) has a version in
      `new_collections` (or `new_roles`) exactly when the last install line about it
      carries that version. */
  lemma InstalledLast(lines: seq<string>, r: Installed)
    ensures Holds(InstallFold(NoInstalls, lines), r) <==> exists i :: LastInstallLine(lines, r, i)
  {
    RecordAllLast(Reports(lines), r);
    forall i ensures LastInstallLine(lines, r, i) <==> LastReportAt(Reports(lines), r, i) {
      LastInstallLineReports(lines, r, i);
    }
  }
}
