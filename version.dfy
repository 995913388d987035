/** How `AnsibleGalaxyInstall` finds out which `ansible-galaxy` it drives:
    `_get_ansible_galaxy_version` with its output `process`, its locale
    classifier and its one retry under another locale
    (plugins/modules/ansible_galaxy_install.py:240-261), and the minimum-version
    gate of `__init_module__` (plugins/modules/ansible_galaxy_install.py:264-267). */
module GalaxyVersion {
  import opened Wrappers
  import opened Text
  import opened Patterns
  import opened Runner

  const UnsupportedLocaleText := "unsupported locale setting"
  const CannotChangeLocaleText := "cannot change locale"
  const NotRecognisedText := "Unable to determine ansible-galaxy version from: "
  const TooOldText := "Support for Ansible 2.9 and ansible-base 2.10 has been removed."

  /** The locale of the first run, and the one the module falls back to. */
  const FirstLocale := "C.UTF-8"
  const SecondLocale := "en_US.UTF-8"

  /** The smallest supported version, as a tuple. */
  const MinimumVersion: seq<int> := [2, 11]

  /** The run failed because the locale it was forced to is not installed. */
  predicate IsUnsupportedLocale(rc: int, err: string) {
    (rc != 0 && Contains(err, UnsupportedLocaleText)) || (rc == 0 && Contains(err, CannotChangeLocaleText))
  }

  /** The `process` of `_get_ansible_galaxy_version`: the version on the first line
      of the output. An output without lines makes `splitlines()[0]` raise, which
      ends the module with an error as well. */
  function ProcessVersion(o: Output): (r: Result<string, Failure>)
    ensures r.Ok? ==> IsNumericTriple(r.value)
    ensures r.Err? && r.error.UnsupportedLocale? <==> IsUnsupportedLocale(o.rc, o.err)
  {
    if IsUnsupportedLocale(o.rc, o.err) then Err(UnsupportedLocale(o.err))
    else
      var lines := SplitLines(o.out);
      if lines == [] then Err(VersionOutputEmpty)
      else
        match MatchGalaxyVersion(lines[0])
        case None => Err(VersionNotRecognised(NotRecognisedText + lines[0]))
        case Some(v) => Ok(v)
  }

  /** A version is found exactly when the run did not hit the locale problem and
      the first line of its output is a version line for it. */
  lemma ProcessVersionOk(o: Output, v: string)
    ensures ProcessVersion(o) == Ok(v)
        <==> !IsUnsupportedLocale(o.rc, o.err) && SplitLines(o.out) != [] && IsVersionLine(SplitLines(o.out)[0], v)
  {
    if SplitLines(o.out) != [] {
      MatchGalaxyVersionIff(SplitLines(o.out)[0], v);
    }
  }

  /** The first line is reported back exactly when it is not a version line for
      any version. */
  lemma ProcessVersionNotRecognised(o: Output, msg: string)
    ensures ProcessVersion(o) == Err(VersionNotRecognised(msg))
        <==> !IsUnsupportedLocale(o.rc, o.err) && SplitLines(o.out) != []
             && msg == NotRecognisedText + SplitLines(o.out)[0]
             && forall v :: !IsVersionLine(SplitLines(o.out)[0], v)
  {
    if SplitLines(o.out) != [] {
      var line := SplitLines(o.out)[0];
      forall v
        ensures IsVersionLine(line, v) <==> MatchGalaxyVersion(line) == Some(v)
      {
        MatchGalaxyVersionIff(line, v);
      }
    }
  }

  /** `x.y.z` is `\d+\.\d+\.\d+` when its three parts are digit runs. */
  lemma TripleOfParts(x: string, y: string, z: string)
    requires x != [] && y != [] && z != [] && All(x, IsDigit) && All(y, IsDigit) && All(z, IsDigit)
    ensures IsNumericTriple(x + "." + y + "." + z)
  {
    var v := x + "." + y + "." + z;
    var i := |x|;
    var j := |x| + 1 + |y|;
    assert AllIn(v, 0, i, IsDigit) by {
      forall k | 0 <= k < i ensures IsDigit(v[k]) {
        assert v[k] == x[k];
      }
    }
    assert AllIn(v, i + 1, j, IsDigit) by {
      forall k | i + 1 <= k < j ensures IsDigit(v[k]) {
        assert v[k] == y[k - i - 1];
      }
    }
    assert AllIn(v, j + 1, |v|, IsDigit) by {
      forall k | j + 1 <= k < |v| ensures IsDigit(v[k]) {
        assert v[k] == z[k - j - 1];
      }
    }
    assert TripleSplit(v, 0, |v|, i, j);
  }

  /** A first output line `ansible-galaxy X.Y.Z…` or `ansible-galaxy [core X.Y.Z…`
      yields `X.Y.Z`, whatever follows the last digit run (a `.suffix`, a `]`, or
      anything else that does not start with a digit). */
  lemma RecognisedFirstLine(o: Output, x: string, y: string, z: string, core: bool, tail: string)
    requires x != [] && y != [] && z != [] && All(x, IsDigit) && All(y, IsDigit) && All(z, IsDigit)
    requires tail == [] || !IsDigit(tail[0])
    requires !IsUnsupportedLocale(o.rc, o.err)
    requires SplitLines(o.out) != []
    requires SplitLines(o.out)[0] == (if core then CoreLead else PlainLead) + (x + "." + y + "." + z) + tail
    ensures ProcessVersion(o) == Ok(x + "." + y + "." + z)
  {
    var v := x + "." + y + "." + z;
    var lead := if core then CoreLead else PlainLead;
    var line := lead + v + tail;
    TripleOfParts(x, y, z);
    assert At(line, 0, lead) by {
      forall i | 0 <= i < |lead| ensures line[0 + i] == lead[i] {
        assert line[i] == (lead + v)[i];
      }
    }
    assert At(line, |lead|, v) by {
      forall i | 0 <= i < |v| ensures line[|lead| + i] == v[i] {
        assert line[|lead| + i] == (lead + v)[|lead| + i];
      }
    }
    assert tail != [] ==> line[|lead| + |v|] == tail[0];
    assert LeadsWithVersion(line, lead, v);
    ProcessVersionOk(o, v);
  }

  /** What `_get_ansible_galaxy_version` does: the locales it ran `ansible-galaxy
      --version` under, in order, and what it returned or raised. */
  datatype Resolution = Resolution(locales: seq<string>, outcome: Result<string, Failure>)

  /** The first run uses `check_rc=False`, so its output is always processed. Only
      the locale problem is caught, and then the command runs once more under the
      second locale with `check_rc=True`: a non-zero exit code fails the module
      before the output is looked at, and nothing that goes wrong on the second
      run is caught. */
  function ResolveVersion(cli: Cli): (r: Resolution)
    ensures 1 <= |r.locales| <= 2 && r.locales[0] == FirstLocale
    ensures |r.locales| == 2 ==> r.locales[1] == SecondLocale
    ensures r.outcome.Ok? ==> IsNumericTriple(r.outcome.value)
  {
    var first := ProcessVersion(cli(FirstLocale, VersionArgv()));
    if first.Err? && first.error.UnsupportedLocale? then
      var o := cli(SecondLocale, VersionArgv());
      Resolution([FirstLocale, SecondLocale], if o.rc != 0 then Err(CommandFailed(o.rc, o.err)) else ProcessVersion(o))
    else Resolution([FirstLocale], first)
  }

  /** The second locale is tried exactly when the first run is classified as the
      locale problem. */
  lemma RetryIff(cli: Cli)
    ensures var o := cli(FirstLocale, VersionArgv());
            |ResolveVersion(cli).locales| == 2 <==> IsUnsupportedLocale(o.rc, o.err)
  {
  }

  /** Without the locale problem the first run decides, whatever its outcome. */
  lemma NoRetry(cli: Cli)
    requires var o := cli(FirstLocale, VersionArgv()); !IsUnsupportedLocale(o.rc, o.err)
    ensures ResolveVersion(cli) == Resolution([FirstLocale], ProcessVersion(cli(FirstLocale, VersionArgv())))
  {
  }

  /** After the retry the second run decides, and a failure there is final: the
      locale problem again is raised as it is, a non-zero exit code fails the
      module. */
  lemma SecondRunFinal(cli: Cli)
    requires var o := cli(FirstLocale, VersionArgv()); IsUnsupportedLocale(o.rc, o.err)
    ensures var o := cli(SecondLocale, VersionArgv());
            && ResolveVersion(cli).locales == [FirstLocale, SecondLocale]
            && (o.rc != 0 ==> ResolveVersion(cli).outcome == Err(CommandFailed(o.rc, o.err)))
            && (o.rc == 0 ==> ResolveVersion(cli).outcome == ProcessVersion(o))
            && (o.rc == 0 && Contains(o.err, CannotChangeLocaleText)
                ==> ResolveVersion(cli).outcome == Err(UnsupportedLocale(o.err)))
  {
  }

  /** A resolved version is the one on the first line of the last run's output. */
  lemma ResolvedVersion(cli: Cli, v: string)
    requires ResolveVersion(cli).outcome == Ok(v)
    ensures var locales := ResolveVersion(cli).locales;
            var o := cli(locales[|locales| - 1], VersionArgv());
            && SplitLines(o.out) != [] && IsVersionLine(SplitLines(o.out)[0], v)
            && !IsUnsupportedLocale(o.rc, o.err)
  {
    var locales := ResolveVersion(cli).locales;
    ProcessVersionOk(cli(locales[|locales| - 1], VersionArgv()), v);
  }

  // ---------------------------------------------------------------------------
  // The version gate
  // ---------------------------------------------------------------------------

  /** `split('.')` cuts a numeric triple into its three digit runs. */
  lemma TripleParts(v: string)
    requires IsNumericTriple(v)
    ensures var parts := SplitOn(v, '.');
            && |parts| == 3 && v == parts[0] + "." + parts[1] + "." + parts[2]
            && All(parts[0], IsDigit) && All(parts[1], IsDigit) && All(parts[2], IsDigit)
  {
    var i: nat, j: nat :| TripleSplit(v, 0, |v|, i, j);
    var x, y, z := v[..i], v[i + 1..j], v[j + 1..];
    AllInSlice(v, 0, i, IsDigit);
    AllInSlice(v, i + 1, j, IsDigit);
    AllInSlice(v, j + 1, |v|, IsDigit);
    assert v == x + "." + (y + "." + z);
    PartsOf(x, y, z);
  }

  lemma PartsOf(x: string, y: string, z: string)
    requires All(x, IsDigit) && All(y, IsDigit) && All(z, IsDigit)
    ensures SplitOn(x + "." + (y + "." + z), '.') == [x, y, z]
  {
    assert '.' !in x && '.' !in y && '.' !in z;
    SplitOnConcat(x, y + "." + z, '.');
    SplitOnConcat(y, z, '.');
    SplitOnFree(z, '.');
  }

  /** `tuple(int(x) for x in version.split('.')[:3])` */
  function VersionTuple(v: string): (t: seq<int>)
    requires IsNumericTriple(v)
    ensures |t| == 3
  {
    TripleParts(v);
    var parts := SplitOn(v, '.')[..3];
    [Decimal(parts[0]), Decimal(parts[1]), Decimal(parts[2])]
  }

  lemma VersionTupleOf(x: string, y: string, z: string)
    requires x != [] && y != [] && z != [] && All(x, IsDigit) && All(y, IsDigit) && All(z, IsDigit)
    ensures IsNumericTriple(x + "." + y + "." + z)
    ensures VersionTuple(x + "." + y + "." + z) == [Decimal(x), Decimal(y), Decimal(z)]
  {
    TripleOfParts(x, y, z);
    SplitTriple(x, y, z);
  }

  lemma SplitTriple(x: string, y: string, z: string)
    requires All(x, IsDigit) && All(y, IsDigit) && All(z, IsDigit)
    ensures SplitOn(x + "." + y + "." + z, '.') == [x, y, z]
  {
    assert x + "." + y + "." + z == x + "." + (y + "." + z);
    PartsOf(x, y, z);
  }

  /** Python's `<` on tuples of integers. */
  predicate TupleLess(a: seq<int>, b: seq<int>) {
    if b == [] then false
    else if a == [] then true
    else if a[0] != b[0] then a[0] < b[0]
    else TupleLess(a[1..], b[1..])
  }

  /** `a` and `b` agree before index `k`, and there `a` has ended while `b` goes on,
      or `a` has the smaller element. */
  ghost predicate DecidedAt(a: seq<int>, b: seq<int>, k: nat) {
    k <= |a| && k < |b| && a[..k] == b[..k] && (k == |a| || a[k] < b[k])
  }

  /** Tuple order is lexicographic: the first position where the tuples differ
      decides, and a proper prefix is smaller. */
  lemma {:induction false} TupleLessIff(a: seq<int>, b: seq<int>)
    ensures TupleLess(a, b) <==> exists k :: DecidedAt(a, b, k)
    decreases |a|
  {
    if b == [] {
    } else if a == [] {
      assert DecidedAt(a, b, 0);
    } else if a[0] != b[0] {
      if a[0] < b[0] {
        assert DecidedAt(a, b, 0);
      }
    } else {
      TupleLessIff(a[1..], b[1..]);
      if TupleLess(a, b) {
        var k: nat :| DecidedAt(a[1..], b[1..], k);
        assert a[..k + 1] == [a[0]] + a[1..][..k];
        assert b[..k + 1] == [b[0]] + b[1..][..k];
        assert DecidedAt(a, b, k + 1);
      }
      if exists k :: DecidedAt(a, b, k) {
        var k: nat :| DecidedAt(a, b, k);
        assert k > 0;
        assert a[1..][..k - 1] == a[..k][1..];
        assert b[1..][..k - 1] == b[..k][1..];
        assert DecidedAt(a[1..], b[1..], k - 1);
      }
    }
  }

  /** The module refuses a version older than 2.11. */
  predicate IsTooOld(v: string)
    requires IsNumericTriple(v)
  {
    TupleLess(VersionTuple(v), MinimumVersion)
  }

  /** A version `X.Y.Z` is refused exactly when `X < 2`, or `X == 2` and `Y < 11`;
      `Z` never matters. */
  lemma GateIff(x: string, y: string, z: string)
    requires x != [] && y != [] && z != [] && All(x, IsDigit) && All(y, IsDigit) && All(z, IsDigit)
    ensures IsNumericTriple(x + "." + y + "." + z)
    ensures IsTooOld(x + "." + y + "." + z) <==> Decimal(x) < 2 || (Decimal(x) == 2 && Decimal(y) < 11)
  {
    VersionTupleOf(x, y, z);
    GateOfTuple([Decimal(x), Decimal(y), Decimal(z)]);
  }

  /** Against `(2, 11)` only the first two elements of a triple count. */
  lemma GateOfTuple(t: seq<int>)
    requires |t| == 3
    ensures TupleLess(t, MinimumVersion) <==> t[0] < 2 || (t[0] == 2 && t[1] < 11)
  {
    var m := MinimumVersion;
    assert m[0] == 2 && m[1..] == [11];
    assert TupleLess(t, m) == (if t[0] != 2 then t[0] < 2 else TupleLess(t[1..], [11]));
    assert t[1..][0] == t[1] && [11][1..] == [];
    assert TupleLess(t[1..], [11]) == (if t[1] != 11 then t[1] < 11 else TupleLess(t[1..][1..], []));
  }
}
