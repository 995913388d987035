/** The five regular expressions of `AnsibleGalaxyInstall`
    (plugins/modules/ansible_galaxy_install.py:198-204) as matchers over strings.

    Each pattern is given twice: a matcher that consumes the line the way the
    regular-expression engine does (greedy runs, alternatives tried in order), and
    a declarative grammar predicate saying which lines the pattern accepts and what
    its groups capture, written as "at offset k the line holds w". The matcher's
    contract gives the grammar of every match, and a lemma per pattern proves the
    converse, so a matcher returns exactly the groups the grammar assigns to the
    line. Every character class here is ASCII-only. */
module Patterns {
  import opened Wrappers
  import opened Text

  /** One listed element: the `elem` and `version` groups of the list patterns. */
  datatype Item = Item(name: string, version: string)

  /** A match of `_RE_INSTALL_OUTPUT`: the `collection`/`cversion` alternative or the
      `role`/`rversion` one. */
  datatype Installed =
    | CollectionInstalled(name: string, version: string)
    | RoleInstalled(name: string, version: string)

  /** `ansible-galaxy` with the optional ` [core` taken, and its following space. */
  const CoreLead := "ansible-galaxy [core "
  /** `ansible-galaxy` without the optional group, and its following space. */
  const PlainLead := "ansible-galaxy "
  const SuccessText := " was installed successfully"

  // ---------------------------------------------------------------------------
  // Grammar
  // ---------------------------------------------------------------------------

  /** `s[k..e]` is `\w+\.\w+` with its dot at index `i`. */
  ghost predicate QualifiedSplit(s: string, k: nat, e: nat, i: nat) {
    k < i < e - 1 && AllIn(s, k, i, IsWordChar) && AllIn(s, i + 1, e, IsWordChar) && s[i] == '.'
  }

  /** `s[k..e]` is `\w+\.\w+`: two non-empty word runs joined by one dot. */
  ghost predicate QualifiedSpan(s: string, k: nat, e: nat) {
    exists i :: QualifiedSplit(s, k, e, i)
  }

  ghost predicate IsQualifiedName(n: string) {
    QualifiedSpan(n, 0, |n|)
  }

  /** `s[k..e]` is `\d+\.\d+\.\d+` with its dots at indices `i` and `j`. */
  ghost predicate TripleSplit(s: string, k: nat, e: nat, i: nat, j: nat) {
    k < i && i + 1 < j && j + 1 < e
    && AllIn(s, k, i, IsDigit) && AllIn(s, i + 1, j, IsDigit) && AllIn(s, j + 1, e, IsDigit)
    && s[i] == '.' && s[j] == '.'
  }

  /** `s[k..e]` is `\d+\.\d+\.\d+`: three non-empty digit runs joined by dots. */
  ghost predicate TripleSpan(s: string, k: nat, e: nat) {
    exists i, j :: TripleSplit(s, k, e, i, j)
  }

  ghost predicate IsNumericTriple(v: string) {
    TripleSpan(v, 0, |v|)
  }

  /** `[\d\.]+` */
  predicate IsVersionText(v: string) {
    v != [] && All(v, IsVersionChar)
  }

  /** `line` starts with `lead` followed by `v`, and `v` is not followed by a digit
      (the last `\d+` is greedy). */
  ghost predicate LeadsWithVersion(line: string, lead: string, v: string) {
    At(line, 0, lead) && At(line, |lead|, v) && (|line| == |lead| + |v| || !IsDigit(line[|lead| + |v|]))
  }

  /** `^ansible-galaxy(?: \[core)? (?P<version>\d+\.\d+\.\d+)(?:\.\w+)?(?:\])?` matches
      `line` with `version` = `v`. The pattern has no end anchor, so the optional
      suffix and bracket never change the match. */
  ghost predicate IsVersionLine(line: string, v: string) {
    IsNumericTriple(v) && (LeadsWithVersion(line, PlainLead, v) || LeadsWithVersion(line, CoreLead, v))
  }

  /** `^# (?P<path>.*)$` matches `line` with `path` = `p`: `.` stops at "\n" and `$` also
      matches before a final "\n". */
  ghost predicate IsHeaderLine(line: string, p: string) {
    '\n' !in p && At(line, 0, "# ") && (line[2..] == p || line[2..] == p + "\n")
  }

  /** `\s+(?P<version>[\d\.]+)\s*$` matches `line` from offset `k` to its end, with
      `version` = `v`. */
  ghost predicate IsItemTail(line: string, k: nat, v: string) {
    IsVersionText(v) && exists m :: TailSplit(line, k, v, m)
  }

  /** The item tail of `line` from `k`, with its version starting at index `m`. */
  ghost predicate TailSplit(line: string, k: nat, v: string, m: nat) {
    k < m && AllIn(line, k, m, IsSpace) && At(line, m, v) && AllIn(line, m + |v|, |line|, IsSpace)
  }

  /** `^(?P<elem>\w+\.\w+)\s+(?P<version>[\d\.]+)\s*$` */
  ghost predicate IsCollectionItemLine(line: string, it: Item) {
    IsQualifiedName(it.name) && At(line, 0, it.name) && IsItemTail(line, |it.name|, it.version)
  }

  /** `^- (?P<elem>\w+\.\w+),\s+(?P<version>[\d\.]+)\s*$` */
  ghost predicate IsRoleItemLine(line: string, it: Item) {
    IsQualifiedName(it.name) && At(line, 0, "- ") && At(line, 2, it.name) && At(line, 2 + |it.name|, ",")
    && IsItemTail(line, 3 + |it.name|, it.version)
  }

  /** The end of `_RE_INSTALL_OUTPUT`: ` was installed successfully$`. */
  predicate IsSuccessTail(t: string) {
    t == SuccessText || t == SuccessText + "\n"
  }

  /** The offset at which the part of an install line before
      " was installed successfully" ends. */
  function HeadEnd(r: Installed): nat {
    match r
    case CollectionInstalled(n, v) => |n| + 1 + |v|
    case RoleInstalled(n, v) => 5 + |n| + |v|
  }

  /** The first alternative of `_RE_INSTALL_OUTPUT` matches the start of `line` with
      the given groups: `collection:cversion` or `- role (rversion)`. */
  ghost predicate IsInstallHead(line: string, r: Installed) {
    IsQualifiedName(r.name) && IsVersionText(r.version)
    && match r
       case CollectionInstalled(n, v) =>
         At(line, 0, n) && At(line, |n|, ":") && At(line, |n| + 1, v)
       case RoleInstalled(n, v) =>
         At(line, 0, "- ") && At(line, 2, n) && At(line, 2 + |n|, " (") && At(line, 4 + |n|, v)
         && At(line, 4 + |n| + |v|, ")")
  }

  /** `_RE_INSTALL_OUTPUT` matches `line` with the given alternative and groups. */
  ghost predicate IsInstallLine(line: string, r: Installed) {
    IsInstallHead(line, r) && IsSuccessTail(line[HeadEnd(r)..])
  }

  lemma QualifiedSpanSlice(s: string, k: nat, e: nat)
    requires k <= e <= |s|
    ensures QualifiedSpan(s, k, e) <==> IsQualifiedName(s[k..e])
  {
    var n := s[k..e];
    if QualifiedSpan(s, k, e) {
      var i: nat :| QualifiedSplit(s, k, e, i);
      AllInShift(s, k, e, k, i, IsWordChar);
      AllInShift(s, k, e, i + 1, e, IsWordChar);
      assert n[i - k] == '.';
      assert QualifiedSplit(n, 0, |n|, i - k);
    }
    if IsQualifiedName(n) {
      var i: nat :| QualifiedSplit(n, 0, |n|, i);
      AllInShift(s, k, e, k, k + i, IsWordChar);
      AllInShift(s, k, e, k + i + 1, e, IsWordChar);
      assert s[k + i] == n[i];
      assert QualifiedSplit(s, k, e, k + i);
    }
  }

  lemma TripleSpanSlice(s: string, k: nat, e: nat)
    requires k <= e <= |s|
    ensures TripleSpan(s, k, e) <==> IsNumericTriple(s[k..e])
  {
    if TripleSpan(s, k, e) {
      var i: nat, j: nat :| TripleSplit(s, k, e, i, j);
      TripleSpanToSlice(s, k, e, i, j);
    }
    if IsNumericTriple(s[k..e]) {
      var v := s[k..e];
      var i: nat, j: nat :| TripleSplit(v, 0, |v|, i, j);
      TripleSliceToSpan(s, k, e, i, j);
    }
  }

  lemma TripleSpanToSlice(s: string, k: nat, e: nat, i: nat, j: nat)
    requires k < i && i + 1 < j && j + 1 < e <= |s| && s[i] == '.' && s[j] == '.'
    requires AllIn(s, k, i, IsDigit) && AllIn(s, i + 1, j, IsDigit) && AllIn(s, j + 1, e, IsDigit)
    ensures IsNumericTriple(s[k..e])
  {
    AllInShift(s, k, e, k, i, IsDigit);
    AllInShift(s, k, e, i + 1, j, IsDigit);
    AllInShift(s, k, e, j + 1, e, IsDigit);
    assert s[k..e][i - k] == '.' && s[k..e][j - k] == '.';
    assert TripleSplit(s[k..e], 0, e - k, i - k, j - k);
  }

  lemma TripleSliceToSpan(s: string, k: nat, e: nat, i: nat, j: nat)
    requires k <= e <= |s| && 0 < i && i + 1 < j && j + 1 < e - k
    requires s[k..e][i] == '.' && s[k..e][j] == '.'
    requires AllIn(s[k..e], 0, i, IsDigit) && AllIn(s[k..e], i + 1, j, IsDigit) && AllIn(s[k..e], j + 1, e - k, IsDigit)
    ensures TripleSpan(s, k, e)
  {
    AllInShift(s, k, e, k, k + i, IsDigit);
    AllInShift(s, k, e, k + i + 1, k + j, IsDigit);
    AllInShift(s, k, e, k + j + 1, e, IsDigit);
    assert s[k + i] == s[k..e][i] && s[k + j] == s[k..e][j];
    assert TripleSplit(s, k, e, k + i, k + j);
  }

  // ---------------------------------------------------------------------------
  // Matchers
  // ---------------------------------------------------------------------------

  /** The end of the `\w+\.\w+` that starts at offset `k` of `s`, if there is one. */
  function MatchQualifiedName(s: string, k: nat): (r: Option<nat>)
    requires k <= |s|
    ensures r.Some? ==> k < r.value <= |s| && QualifiedSpan(s, k, r.value)
    ensures r.Some? ==> r.value == |s| || !IsWordChar(s[r.value])
  {
    var a := Run(s, k, IsWordChar);
    if a == k || a == |s| || s[a] != '.' then None
    else
      var b := Run(s, a + 1, IsWordChar);
      if b == a + 1 then None
      else
        assert QualifiedSplit(s, k, b, a);
        Some(b)
  }

  lemma MatchQualifiedNameOf(s: string, k: nat, e: nat)
    requires QualifiedSpan(s, k, e) && (e == |s| || !IsWordChar(s[e]))
    ensures MatchQualifiedName(s, k) == Some(e)
  {
    var i: nat :| QualifiedSplit(s, k, e, i);
    RunUnique(s, k, IsWordChar, i);
    RunUnique(s, i + 1, IsWordChar, e);
  }

  /** The end of the `\d+\.\d+\.\d+` that starts at offset `k` of `s`, if there is one. */
  function MatchTriple(s: string, k: nat): (r: Option<nat>)
    requires k <= |s|
    ensures r.Some? ==> k < r.value <= |s| && TripleSpan(s, k, r.value)
    ensures r.Some? ==> r.value == |s| || !IsDigit(s[r.value])
  {
    var a := Run(s, k, IsDigit);
    if a == k || a == |s| || s[a] != '.' then None
    else
      var b := Run(s, a + 1, IsDigit);
      if b == a + 1 || b == |s| || s[b] != '.' then None
      else
        var c := Run(s, b + 1, IsDigit);
        if c == b + 1 then None
        else
          assert TripleSplit(s, k, c, a, b);
          Some(c)
  }

  lemma MatchTripleOf(s: string, k: nat, e: nat)
    requires TripleSpan(s, k, e) && (e == |s| || !IsDigit(s[e]))
    ensures MatchTriple(s, k) == Some(e)
  {
    var i: nat, j: nat :| TripleSplit(s, k, e, i, j);
    RunUnique(s, k, IsDigit, i);
    RunUnique(s, i + 1, IsDigit, j);
    RunUnique(s, j + 1, IsDigit, e);
    MatchTripleFromParts(s, k, i, j, e);
  }

  /** One unfolding of `MatchTriple`. */
  lemma MatchTripleFromParts(s: string, k: nat, i: nat, j: nat, e: nat)
    requires k < i && i + 1 < j && j + 1 < e <= |s| && s[i] == '.' && s[j] == '.'
    requires Run(s, k, IsDigit) == i && Run(s, i + 1, IsDigit) == j && Run(s, j + 1, IsDigit) == e
    ensures MatchTriple(s, k) == Some(e)
  {
  }

  /** The `\d+\.\d+\.\d+` starting at offset `k` of `line`. */
  function MatchVersionAt(line: string, k: nat): (r: Option<string>)
    requires k <= |line|
    ensures r.Some? ==> IsNumericTriple(r.value) && At(line, k, r.value)
    ensures r.Some? ==> |line| == k + |r.value| || !IsDigit(line[k + |r.value|])
  {
    match MatchTriple(line, k)
    case None => None
    case Some(e) =>
      TripleSpanSlice(line, k, e);
      SliceAt(line, k, e);
      Some(line[k..e])
  }

  lemma MatchVersionAtOf(line: string, k: nat, v: string)
    requires IsNumericTriple(v) && At(line, k, v) && (|line| == k + |v| || !IsDigit(line[k + |v|]))
    ensures MatchVersionAt(line, k) == Some(v)
  {
    AtSlice(line, k, v);
    TripleSpanSlice(line, k, k + |v|);
    MatchTripleOf(line, k, k + |v|);
  }

  /** `_RE_GALAXY_VERSION.match(line)`, giving the `version` group. The optional
      ` [core` is tried first, as the engine does. */
  function MatchGalaxyVersion(line: string): (r: Option<string>)
    ensures r.Some? ==> IsVersionLine(line, r.value)
  {
    var withCore := if At(line, 0, CoreLead) then MatchVersionAt(line, |CoreLead|) else None;
    if withCore.Some? then withCore
    else if At(line, 0, PlainLead) then MatchVersionAt(line, |PlainLead|)
    else None
  }

  /** A numeric triple begins with a digit. */
  lemma TripleStartsWithDigit(v: string)
    requires IsNumericTriple(v)
    ensures v != [] && IsDigit(v[0])
  {
  }

  /** The version pattern captures exactly the triple that the grammar places after
      `ansible-galaxy ` or `ansible-galaxy [core `. */
  lemma MatchGalaxyVersionIff(line: string, v: string)
    ensures MatchGalaxyVersion(line) == Some(v) <==> IsVersionLine(line, v)
  {
    if IsVersionLine(line, v) {
      if LeadsWithVersion(line, CoreLead, v) {
        MatchVersionAtOf(line, |CoreLead|, v);
      } else {
        TripleStartsWithDigit(v);
        assert line[|PlainLead| + 0] == v[0];
        assert !At(line, 0, CoreLead) by {
          assert CoreLead[15] == '[';
        }
        MatchVersionAtOf(line, |PlainLead|, v);
      }
    }
  }

  /** `^# (?P<path>.*)$`, giving the `path` group. */
  function MatchListPath(line: string): (r: Option<string>)
    ensures r.Some? ==> IsHeaderLine(line, r.value)
  {
    if !At(line, 0, "# ") then None
    else
      var p := line[2..];
      if '\n' !in p then Some(p)
      else if p[|p| - 1] == '\n' && '\n' !in p[..|p| - 1] then
        assert p == p[..|p| - 1] + "\n";
        Some(p[..|p| - 1])
      else None
  }

  lemma MatchListPathIff(line: string, p: string)
    ensures MatchListPath(line) == Some(p) <==> IsHeaderLine(line, p)
  {
    if IsHeaderLine(line, p) && line[2..] == p + "\n" {
      assert (p + "\n")[..|p|] == p;
    }
  }

  /** `\s+(?P<version>[\d\.]+)\s*$` from offset `k` of `s` to its end, giving the
      `version` group. */
  function MatchItemTail(s: string, k: nat): (r: Option<string>)
    requires k <= |s|
  {
    var m := Run(s, k, IsSpace);
    if m == k then None
    else
      var b := Run(s, m, IsVersionChar);
      if b == m || !AllIn(s, b, |s|, IsSpace) then None
      else Some(s[m..b])
  }

  lemma MatchItemTailSound(s: string, k: nat)
    requires k <= |s| && MatchItemTail(s, k).Some?
    ensures IsItemTail(s, k, MatchItemTail(s, k).value)
  {
    var m := Run(s, k, IsSpace);
    var b := Run(s, m, IsVersionChar);
    AllInSlice(s, m, b, IsVersionChar);
    SliceAt(s, m, b);
    assert TailSplit(s, k, s[m..b], m);
  }

  lemma MatchItemTailOf(s: string, k: nat, v: string)
    requires IsItemTail(s, k, v)
    ensures MatchItemTail(s, k) == Some(v)
  {
    var m: nat :| TailSplit(s, k, v, m);
    assert s[m + 0] == v[0];
    RunUnique(s, k, IsSpace, m);
    VersionRun(s, m, v);
    MatchItemTailFromParts(s, k, m, m + |v|);
  }

  /** A version text written at offset `k` and not followed by a version character is
      exactly what the greedy `[\d\.]+` takes there. */
  lemma VersionRun(s: string, k: nat, v: string)
    requires IsVersionText(v) && At(s, k, v) && (k + |v| == |s| || !IsVersionChar(s[k + |v|]))
    ensures Run(s, k, IsVersionChar) == k + |v| && s[k..k + |v|] == v
  {
    AtAll(s, k, v, IsVersionChar);
    RunUnique(s, k, IsVersionChar, k + |v|);
    AtSlice(s, k, v);
  }

  /** One unfolding of `MatchItemTail`. */
  lemma MatchItemTailFromParts(s: string, k: nat, m: nat, b: nat)
    requires k <= |s| && Run(s, k, IsSpace) == m && m > k
    requires Run(s, m, IsVersionChar) == b && b > m && AllIn(s, b, |s|, IsSpace)
    ensures MatchItemTail(s, k) == Some(s[m..b])
  {
  }

  /** The item tail begins with whitespace. */
  lemma ItemTailStartsWithSpace(s: string, k: nat, v: string)
    requires IsItemTail(s, k, v)
    ensures k < |s| && IsSpace(s[k])
  {
  }

  /** `_RE_LIST_COLL.match(line)`, giving `elem` and `version`. */
  function MatchListCollection(line: string): (r: Option<Item>) {
    match MatchQualifiedName(line, 0)
    case None => None
    case Some(a) =>
      match MatchItemTail(line, a)
      case None => None
      case Some(v) => Some(Item(line[0..a], v))
  }

  lemma MatchListCollectionSound(line: string)
    requires MatchListCollection(line).Some?
    ensures IsCollectionItemLine(line, MatchListCollection(line).value)
  {
    var a := MatchQualifiedName(line, 0).value;
    MatchItemTailSound(line, a);
    QualifiedSpanSlice(line, 0, a);
    SliceAt(line, 0, a);
  }

  lemma MatchListCollectionIff(line: string, it: Item)
    ensures MatchListCollection(line) == Some(it) <==> IsCollectionItemLine(line, it)
  {
    if MatchListCollection(line) == Some(it) {
      MatchListCollectionSound(line);
    }
    if IsCollectionItemLine(line, it) {
      MatchListCollectionOf(line, it);
    }
  }

  lemma MatchListCollectionOf(line: string, it: Item)
    requires IsCollectionItemLine(line, it)
    ensures MatchListCollection(line) == Some(it)
  {
    var n := it.name;
    AtSlice(line, 0, n);
    QualifiedSpanSlice(line, 0, |n|);
    ItemTailStartsWithSpace(line, |n|, it.version);
    MatchQualifiedNameOf(line, 0, |n|);
    MatchItemTailOf(line, |n|, it.version);
  }

  /** `_RE_LIST_ROLE.match(line)`, giving `elem` and `version`. */
  function MatchListRole(line: string): (r: Option<Item>) {
    if !At(line, 0, "- ") then None
    else
      match MatchQualifiedName(line, 2)
      case None => None
      case Some(a) =>
        if a < |line| && line[a] == ',' then
          match MatchItemTail(line, a + 1)
          case None => None
          case Some(v) => Some(Item(line[2..a], v))
        else None
  }

  lemma MatchListRoleSound(line: string)
    requires MatchListRole(line).Some?
    ensures IsRoleItemLine(line, MatchListRole(line).value)
  {
    var a := MatchQualifiedName(line, 2).value;
    MatchItemTailSound(line, a + 1);
    QualifiedSpanSlice(line, 2, a);
    SliceAt(line, 2, a);
    assert At(line, a, ",");
  }

  lemma MatchListRoleIff(line: string, it: Item)
    ensures MatchListRole(line) == Some(it) <==> IsRoleItemLine(line, it)
  {
    if MatchListRole(line) == Some(it) {
      MatchListRoleSound(line);
    }
    if IsRoleItemLine(line, it) {
      MatchListRoleOf(line, it);
    }
  }

  lemma MatchListRoleOf(line: string, it: Item)
    requires IsRoleItemLine(line, it)
    ensures MatchListRole(line) == Some(it)
  {
    var n := it.name;
    AtSlice(line, 2, n);
    QualifiedSpanSlice(line, 2, 2 + |n|);
    assert line[2 + |n| + 0] == ","[0];
    MatchQualifiedNameOf(line, 2, 2 + |n|);
    MatchItemTailOf(line, 3 + |n|, it.version);
  }

  /** The `collection:cversion` part of `_RE_INSTALL_OUTPUT`. The version run is
      greedy, so what follows it is not a version character. */
  function MatchCollectionHead(line: string): (r: Option<Installed>)
    ensures r.Some? ==> r.value.CollectionInstalled?
  {
    match MatchQualifiedName(line, 0)
    case None => None
    case Some(a) =>
      if a < |line| && line[a] == ':' then
        var b := Run(line, a + 1, IsVersionChar);
        if b == a + 1 then None
        else Some(CollectionInstalled(line[0..a], line[a + 1..b]))
      else None
  }

  /** What `MatchCollectionHead` takes is a head of the grammar, and the version run
      ends where the line stops holding version characters. */
  lemma MatchCollectionHeadSound(line: string)
    requires MatchCollectionHead(line).Some?
    ensures IsInstallHead(line, MatchCollectionHead(line).value)
    ensures var e := HeadEnd(MatchCollectionHead(line).value); e == |line| || !IsVersionChar(line[e])
  {
    var a := MatchQualifiedName(line, 0).value;
    var b := Run(line, a + 1, IsVersionChar);
    CollectionHeadOfParts(line, a, b);
  }

  lemma CollectionHeadOfParts(line: string, a: nat, b: nat)
    requires 0 < a < |line| && QualifiedSpan(line, 0, a) && line[a] == ':'
    requires AllIn(line, a + 1, b, IsVersionChar) && a + 1 < b
    ensures IsInstallHead(line, CollectionInstalled(line[0..a], line[a + 1..b]))
  {
    QualifiedSpanSlice(line, 0, a);
    SliceAt(line, 0, a);
    SliceAt(line, a + 1, b);
    AllInSlice(line, a + 1, b, IsVersionChar);
    assert At(line, a, ":");
  }

  /** One unfolding of `MatchCollectionHead`. */
  lemma MatchCollectionHeadFromParts(line: string, a: nat, b: nat)
    requires MatchQualifiedName(line, 0) == Some(a) && a < |line| && line[a] == ':'
    requires Run(line, a + 1, IsVersionChar) == b && b > a + 1
    ensures MatchCollectionHead(line) == Some(CollectionInstalled(line[0..a], line[a + 1..b]))
  {
  }

  lemma MatchCollectionHeadOf(line: string, n: string, v: string)
    requires IsInstallHead(line, CollectionInstalled(n, v))
    requires |n| + 1 + |v| == |line| || !IsVersionChar(line[|n| + 1 + |v|])
    ensures MatchCollectionHead(line) == Some(CollectionInstalled(n, v))
  {
    NameAt(line, 0, n, ":");
    VersionRun(line, |n| + 1, v);
    MatchCollectionHeadFromParts(line, |n|, |n| + 1 + |v|);
  }

  /** A qualified name written at offset `k` and followed by `sep`, which starts with
      a character that is not a word character, is exactly what `\w+\.\w+` takes
      there. */
  lemma NameAt(line: string, k: nat, n: string, sep: string)
    requires IsQualifiedName(n) && At(line, k, n) && At(line, k + |n|, sep) && sep != [] && !IsWordChar(sep[0])
    ensures MatchQualifiedName(line, k) == Some(k + |n|) && line[k..k + |n|] == n
    ensures forall i :: 0 <= i < |sep| ==> line[k + |n| + i] == sep[i]
  {
    AtSlice(line, k, n);
    QualifiedSpanSlice(line, k, k + |n|);
    assert line[k + |n| + 0] == sep[0];
    MatchQualifiedNameOf(line, k, k + |n|);
  }

  /** The `- role (rversion)` part of `_RE_INSTALL_OUTPUT`. */
  function MatchRoleHead(line: string): (r: Option<Installed>)
    ensures r.Some? ==> r.value.RoleInstalled?
  {
    if !At(line, 0, "- ") then None
    else
      match MatchQualifiedName(line, 2)
      case None => None
      case Some(a) =>
        if a + 1 < |line| && line[a] == ' ' && line[a + 1] == '(' then
          var b := Run(line, a + 2, IsVersionChar);
          if a + 2 < b < |line| && line[b] == ')' then
            Some(RoleInstalled(line[2..a], line[a + 2..b]))
          else None
        else None
  }

  /** What `MatchRoleHead` takes is a head of the grammar. */
  lemma MatchRoleHeadSound(line: string)
    requires MatchRoleHead(line).Some?
    ensures IsInstallHead(line, MatchRoleHead(line).value)
  {
    var a := MatchQualifiedName(line, 2).value;
    var b := Run(line, a + 2, IsVersionChar);
    RoleHeadOfParts(line, a, b);
  }

  lemma RoleHeadOfParts(line: string, a: nat, b: nat)
    requires At(line, 0, "- ") && 2 < a && a + 1 < |line| && QualifiedSpan(line, 2, a)
    requires line[a] == ' ' && line[a + 1] == '('
    requires AllIn(line, a + 2, b, IsVersionChar) && a + 2 < b < |line| && line[b] == ')'
    ensures IsInstallHead(line, RoleInstalled(line[2..a], line[a + 2..b]))
  {
    QualifiedSpanSlice(line, 2, a);
    SliceAt(line, 2, a);
    SliceAt(line, a + 2, b);
    AllInSlice(line, a + 2, b, IsVersionChar);
    assert At(line, a, " (");
    assert At(line, b, ")");
  }

  /** One unfolding of `MatchRoleHead`. */
  lemma MatchRoleHeadFromParts(line: string, a: nat, b: nat)
    requires At(line, 0, "- ") && MatchQualifiedName(line, 2) == Some(a)
    requires a + 1 < |line| && line[a] == ' ' && line[a + 1] == '('
    requires Run(line, a + 2, IsVersionChar) == b && a + 2 < b < |line| && line[b] == ')'
    ensures MatchRoleHead(line) == Some(RoleInstalled(line[2..a], line[a + 2..b]))
  {
  }

  lemma MatchRoleHeadOf(line: string, n: string, v: string)
    requires IsInstallHead(line, RoleInstalled(n, v))
    ensures MatchRoleHead(line) == Some(RoleInstalled(n, v))
  {
    NameAt(line, 2, n, " (");
    assert line[2 + |n| + 0] == " ("[0] && line[2 + |n| + 1] == " ("[1];
    assert line[4 + |n| + |v| + 0] == ")"[0];
    VersionRun(line, 4 + |n|, v);
    MatchRoleHeadFromParts(line, 2 + |n|, 4 + |n| + |v|);
  }

  /** The `collection:cversion` alternative of `_RE_INSTALL_OUTPUT`. */
  function MatchCollectionInstall(line: string): (r: Option<Installed>)
    ensures r.Some? ==> r.value.CollectionInstalled?
  {
    match MatchCollectionHead(line)
    case None => None
    case Some(h) =>
      if IsSuccessTail(line[HeadEnd(h)..]) then Some(h) else None
  }

  /** The `- role (rversion)` alternative of `_RE_INSTALL_OUTPUT`. */
  function MatchRoleInstall(line: string): (r: Option<Installed>)
    ensures r.Some? ==> r.value.RoleInstalled?
  {
    match MatchRoleHead(line)
    case None => None
    case Some(h) =>
      if IsSuccessTail(line[HeadEnd(h)..]) then Some(h) else None
  }

  /** `_RE_INSTALL_OUTPUT.match(line)`: the alternatives in the pattern's order. */
  function MatchInstall(line: string): (r: Option<Installed>) {
    var c := MatchCollectionInstall(line);
    if c.Some? then c else MatchRoleInstall(line)
  }

  /** What the install pattern reports for a line is what the grammar assigns to it. */
  lemma MatchInstallSound(line: string)
    requires MatchInstall(line).Some?
    ensures IsInstallLine(line, MatchInstall(line).value)
  {
    if MatchCollectionInstall(line).Some? {
      MatchCollectionHeadSound(line);
    } else {
      MatchRoleHeadSound(line);
    }
  }

  /** A success tail begins with the space of " was installed successfully". */
  lemma SuccessTailStart(t: string)
    requires IsSuccessTail(t)
    ensures t != [] && t[0] == ' '
  {
    assert SuccessText[0] == ' ';
    assert t == SuccessText + "\n" ==> t[0] == SuccessText[0];
  }

  /** The install pattern captures exactly the alternative and groups the grammar
      assigns to the line. */
  lemma MatchInstallIff(line: string, r: Installed)
    ensures MatchInstall(line) == Some(r) <==> IsInstallLine(line, r)
  {
    if MatchInstall(line) == Some(r) {
      MatchInstallSound(line);
    }
    if IsInstallLine(line, r) {
      MatchInstallOf(line, r);
    }
  }

  lemma MatchInstallOf(line: string, r: Installed)
    requires IsInstallLine(line, r)
    ensures MatchInstall(line) == Some(r)
  {
    match r
    case CollectionInstalled(n, v) =>
      SuccessTailStart(line[HeadEnd(r)..]);
      MatchCollectionHeadOf(line, n, v);
    case RoleInstalled(n, v) =>
      assert line[0 + 0] == "- "[0];
      RunUnique(line, 0, IsWordChar, 0);
      MatchRoleHeadOf(line, n, v);
  }
}
