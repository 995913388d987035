/** `_list_element` (plugins/modules/ansible_galaxy_install.py:275-300): the output
    of `ansible-galaxy <type> list` read line by line with a cursor holding the
    current path. A `#` line that matches `_RE_LIST_PATH` moves the cursor: to its
    path, which gets a fresh empty entry, or to nothing when `dest` is set and the
    path is another one. While the cursor is on a path, every line matching the
    item pattern of the listed kind, and naming `name` when that is set, records
    the item's version under the path.

    The parser is given as a step function and its left fold, which the loop of
    `ListElement` is proved to compute; the lemmas state what the fold gives. */
module Listing {
  import opened Wrappers
  import opened Text
  import opened Patterns
  import opened Runner

  const UnusableText := "None of the provided paths were usable"

  /** What is listed: collections (`_list_collections`) or roles (`_list_roles`). */
  datatype Kind = CollectionKind | RoleKind

  /** The `dest` and `name` module parameters that narrow a listing, and the kind. */
  datatype Query = Query(kind: Kind, dest: Option<string>, name: Option<string>)

  /** Path to item name to version. */
  type Elements = map<string, map<string, string>>

  /** The `elems_dict` and `current_path` of the loop. */
  datatype ListState = ListState(elems: Elements, cursor: Option<string>)

  const Start := ListState(map[], None)

  /** The `type` passed to the list command. */
  function TypeName(kind: Kind): (t: string)
    ensures t == CollectionType <==> kind == CollectionKind
    ensures t == RoleType <==> kind == RoleKind
  {
    match kind
    case CollectionKind => CollectionType
    case RoleKind => RoleType
  }

  /** The item pattern of the kind: `_RE_LIST_COLL` or `_RE_LIST_ROLE`. */
  function MatchItem(kind: Kind, line: string): Option<Item> {
    match kind
    case CollectionKind => MatchListCollection(line)
    case RoleKind => MatchListRole(line)
  }

  ghost predicate IsItemLine(kind: Kind, line: string, it: Item) {
    match kind
    case CollectionKind => IsCollectionItemLine(line, it)
    case RoleKind => IsRoleItemLine(line, it)
  }

  lemma MatchItemIff(kind: Kind, line: string, it: Item)
    ensures MatchItem(kind, line) == Some(it) <==> IsItemLine(kind, line, it)
  {
    match kind
    case CollectionKind => MatchListCollectionIff(line, it);
    case RoleKind => MatchListRoleIff(line, it);
  }

  /** The `process` of `_list_element`: no lines at all when the command says none
      of the paths were usable, the lines of the output otherwise. */
  function ListLines(out: string): seq<string> {
    if Contains(out, UnusableText) then [] else SplitLines(out)
  }

  /** The cursor is always on a path that has an entry. */
  predicate Valid(st: ListState) {
    st.cursor.Some? ==> st.cursor.value in st.elems
  }

  predicate NameOk(name: Option<string>, e: string) {
    name.None? || e == name.value
  }

  predicate DestOk(dest: Option<string>, p: string) {
    dest.None? || p == dest.value
  }

  /** One turn of the loop. */
  function Step(q: Query, st: ListState, line: string): (r: ListState)
    requires Valid(st)
    ensures Valid(r)
  {
    if StartsWith(line, "#") then
      match MatchListPath(line)
      case None => st
      case Some(p) =>
        if !DestOk(q.dest, p) then ListState(st.elems, None)
        else ListState(st.elems[p := map[]], Some(p))
    else if st.cursor.Some? then
      match MatchItem(q.kind, line)
      case None => st
      case Some(it) =>
        if !NameOk(q.name, it.name) then st
        else
          var c := st.cursor.value;
          ListState(st.elems[c := st.elems[c][it.name := it.version]], st.cursor)
    else st
  }

  /** The loop run over `lines` from `st`. */
  function Fold(q: Query, st: ListState, lines: seq<string>): (r: ListState)
    requires Valid(st)
    ensures Valid(r)
    decreases |lines|
  {
    if lines == [] then st else Step(q, Fold(q, st, lines[..|lines| - 1]), lines[|lines| - 1])
  }

  /** What `_list_element` returns for the output of the list command. */
  function Listed(q: Query, out: string): Elements {
    Fold(q, Start, ListLines(out)).elems
  }

  /** `_list_element` after the command has run: the loop over the processed lines. */
  method ListElement(q: Query, o: Output) returns (elems: Elements)
    ensures elems == Listed(q, o.out)
  {
    var lines := ListLines(o.out);
    elems := map[];
    var cursor: Option<string> := None;
    var i := 0;
    while i < |lines|
      invariant 0 <= i <= |lines|
      invariant Valid(ListState(elems, cursor))
      invariant ListState(elems, cursor) == Fold(q, Start, lines[..i])
    {
      assert lines[..i + 1][..i] == lines[..i];
      elems, cursor := ListLine(q, elems, cursor, lines[i]);
      i := i + 1;
    }
    assert lines[..|lines|] == lines;
  }

  /** The body of the loop of `_list_element` for one line. */
  method ListLine(q: Query, elems: Elements, cursor: Option<string>, line: string)
      returns (elems': Elements, cursor': Option<string>)
    requires Valid(ListState(elems, cursor))
    ensures ListState(elems', cursor') == Step(q, ListState(elems, cursor), line)
  {
    elems', cursor' := elems, cursor;
    if StartsWith(line, "#") {
      var m := MatchListPath(line);
      if m.None? {
        return;
      }
      if q.dest.Some? && m.value != q.dest.value {
        cursor' := None;
        return;
      }
      cursor' := m;
      elems' := elems[m.value := map[]];
    } else if cursor.Some? {
      var m := MatchItem(q.kind, line);
      if m.None? || (q.name.Some? && m.value.name != q.name.value) {
        return;
      }
      elems' := elems[cursor.value := elems[cursor.value][m.value.name := m.value.version]];
    }
  }

  // ---------------------------------------------------------------------------
  // What the listing holds
  // ---------------------------------------------------------------------------

  /** A listing of output that mentions unusable paths is empty, whatever else the
      output holds. */
  lemma UnusableIsEmpty(q: Query, out: string)
    requires Contains(out, UnusableText)
    ensures Listed(q, out) == map[]
  {
  }

  lemma {:induction false} FoldConcat(q: Query, st: ListState, a: seq<string>, b: seq<string>)
    requires Valid(st)
    ensures Fold(q, st, a + b) == Fold(q, Fold(q, st, a), b)
    decreases |b|
  {
    if b == [] {
      assert a + b == a;
    } else {
      assert (a + b)[..|a + b| - 1] == a + b[..|b| - 1];
      FoldConcat(q, st, a, b[..|b| - 1]);
    }
  }

  /** `line` is a path header that the `dest` filter lets through. */
  ghost predicate AcceptedHeader(dest: Option<string>, line: string, p: string) {
    IsHeaderLine(line, p) && DestOk(dest, p)
  }

  /** A header line starts with `#` and its path is what the path pattern captures. */
  lemma HeaderLine(line: string, p: string)
    requires IsHeaderLine(line, p)
    ensures StartsWith(line, "#") && MatchListPath(line) == Some(p)
  {
    assert line[0 + 0] == "# "[0];
    assert line[..1] == "#";
    MatchListPathIff(line, p);
  }

  /** An accepted header moves the cursor to its path and gives the path a fresh
      empty entry, whether or not any item follows. */
  lemma AcceptedHeaderStep(q: Query, st: ListState, line: string, p: string)
    requires Valid(st) && AcceptedHeader(q.dest, line, p)
    ensures Step(q, st, line) == ListState(st.elems[p := map[]], Some(p))
  {
    HeaderLine(line, p);
  }

  /** A header for a path other than `dest` takes the cursor off every path and
      leaves the entries as they are. */
  lemma RejectedHeaderStep(q: Query, st: ListState, line: string, p: string)
    requires Valid(st) && IsHeaderLine(line, p) && !DestOk(q.dest, p)
    ensures Step(q, st, line) == ListState(st.elems, None)
  {
    HeaderLine(line, p);
  }

  /** A `#` line that is not a path header changes nothing, the cursor included. */
  lemma HashLineStep(q: Query, st: ListState, line: string)
    requires Valid(st) && StartsWith(line, "#") && forall p :: !IsHeaderLine(line, p)
    ensures Step(q, st, line) == st
  {
  }

  /** A line adds a path exactly when it is an accepted header for it. */
  lemma StepKeys(q: Query, st: ListState, line: string, p: string)
    requires Valid(st)
    ensures p in Step(q, st, line).elems <==> p in st.elems || AcceptedHeader(q.dest, line, p)
  {
    if IsHeaderLine(line, p) {
      HeaderLine(line, p);
    } else {
      MatchListPathIff(line, p);
    }
  }

  /** Some line of `lines` is an accepted header for `p`. */
  ghost predicate HeaderSeen(dest: Option<string>, lines: seq<string>, p: string) {
    exists i :: 0 <= i < |lines| && AcceptedHeader(dest, lines[i], p)
  }

  lemma {:induction false} FoldKeys(q: Query, st: ListState, lines: seq<string>, p: string)
    requires Valid(st)
    ensures p in Fold(q, st, lines).elems <==> p in st.elems || HeaderSeen(q.dest, lines, p)
    decreases |lines|
  {
    if lines != [] {
      var pre := lines[..|lines| - 1];
      var last := lines[|lines| - 1];
      FoldKeys(q, st, pre, p);
      StepKeys(q, Fold(q, st, pre), last, p);
      if HeaderSeen(q.dest, pre, p) {
        var i :| 0 <= i < |pre| && AcceptedHeader(q.dest, pre[i], p);
        assert lines[i] == pre[i];
      }
      if HeaderSeen(q.dest, lines, p) {
        var i :| 0 <= i < |lines| && AcceptedHeader(q.dest, lines[i], p);
        if i < |pre| {
          assert pre[i] == lines[i];
        }
      }
    }
  }

  /** The paths of a listing are exactly the paths of its accepted headers: filters
      never invent a path, and a path stays even when no item follows it. */
  lemma ListedKeys(q: Query, out: string, p: string)
    ensures p in Listed(q, out) <==> HeaderSeen(q.dest, ListLines(out), p)
  {
    FoldKeys(q, Start, ListLines(out), p);
  }

  /** With `dest` set, the only path a listing can hold is `dest`. */
  lemma ListedDest(q: Query, out: string)
    requires q.dest.Some?
    ensures forall p :: p in Listed(q, out) ==> p == q.dest.value
  {
    forall p | p in Listed(q, out) ensures p == q.dest.value {
      ListedKeys(q, out, p);
    }
  }

  /** Lines before the first accepted header leave the parser where it started. */
  lemma {:induction false} BeforeFirstHeader(q: Query, pre: seq<string>)
    requires forall i, p :: 0 <= i < |pre| ==> !AcceptedHeader(q.dest, pre[i], p)
    ensures Fold(q, Start, pre) == Start
    decreases |pre|
  {
    if pre != [] {
      var init := pre[..|pre| - 1];
      var last := pre[|pre| - 1];
      assert forall i, p :: 0 <= i < |init| ==> !AcceptedHeader(q.dest, init[i], p) by {
        forall i, p | 0 <= i < |init| ensures !AcceptedHeader(q.dest, init[i], p) {
          assert init[i] == pre[i];
        }
      }
      BeforeFirstHeader(q, init);
      if StartsWith(last, "#") && MatchListPath(last).Some? {
        var p := MatchListPath(last).value;
        MatchListPathIff(last, p);
        assert !AcceptedHeader(q.dest, pre[|pre| - 1], p);
      }
    }
  }

  /** So they can be dropped from the output without changing the listing. */
  lemma IgnoredBeforeFirstHeader(q: Query, pre: seq<string>, rest: seq<string>)
    requires forall i, p :: 0 <= i < |pre| ==> !AcceptedHeader(q.dest, pre[i], p)
    ensures Fold(q, Start, pre + rest) == Fold(q, Start, rest)
  {
    BeforeFirstHeader(q, pre);
    FoldConcat(q, Start, pre, rest);
  }

  // ---------------------------------------------------------------------------
  // What a path holds
  // ---------------------------------------------------------------------------

  /** No line of `seg` is a path header, so none of them moves the cursor. */
  ghost predicate NoHeaderLine(seg: seq<string>) {
    forall i :: 0 <= i < |seg| ==> NotHeader(seg[i])
  }

  /** `line` is a header for no path. */
  ghost predicate NotHeader(line: string) {
    forall p :: !IsHeaderLine(line, p)
  }

  lemma NoHeaderLinePrefix(seg: seq<string>)
    requires seg != [] && NoHeaderLine(seg)
    ensures NoHeaderLine(seg[..|seg| - 1]) && NotHeader(seg[|seg| - 1])
  {
    assert forall i :: 0 <= i < |seg| - 1 ==> seg[..|seg| - 1][i] == seg[i];
  }

  /** An item line of either kind starts with a word character or `-`, never `#`. */
  lemma ItemLineStart(kind: Kind, line: string)
    ensures MatchItem(kind, line).Some? ==> |line| > 0 && line[0] != '#'
  {
    if MatchItem(kind, line).Some? {
      var it := MatchItem(kind, line).value;
      MatchItemIff(kind, line, it);
      match kind
      case CollectionKind =>
        var i :| QualifiedSplit(it.name, 0, |it.name|, i);
        assert IsWordChar(it.name[0]);
        assert line[0 + 0] == it.name[0];
      case RoleKind =>
        assert line[0 + 0] == "- "[0];
    }
  }

  /** Off every path, the lines up to the next path header are skipped. */
  lemma {:induction false} NoCursorFold(q: Query, st: ListState, seg: seq<string>)
    requires Valid(st) && st.cursor.None? && NoHeaderLine(seg)
    ensures Fold(q, st, seg) == st
    decreases |seg|
  {
    if seg != [] {
      NoHeaderLinePrefix(seg);
      NoCursorFold(q, st, seg[..|seg| - 1]);
      if StartsWith(seg[|seg| - 1], "#") {
        HashLineStep(q, st, seg[|seg| - 1]);
      }
    }
  }

  lemma FoldOne(q: Query, st: ListState, line: string)
    requires Valid(st)
    ensures Fold(q, st, [line]) == Step(q, st, line)
  {
    assert [line][..0] == [];
  }

  /** After a header for a path other than `dest`, the items up to the next path
      header are dropped. */
  lemma RejectedHeaderDrops(q: Query, st: ListState, h: string, p: string, seg: seq<string>)
    requires Valid(st) && IsHeaderLine(h, p) && !DestOk(q.dest, p) && NoHeaderLine(seg)
    ensures Fold(q, st, [h] + seg) == ListState(st.elems, None)
  {
    RejectedHeaderStep(q, st, h, p);
    FoldOne(q, st, h);
    FoldConcat(q, st, [h], seg);
    NoCursorFold(q, ListState(st.elems, None), seg);
  }

  /** The entry `m` after the item line `line`, if it is one that passes the name
      filter. */
  function AddItem(q: Query, m: map<string, string>, line: string): map<string, string> {
    match MatchItem(q.kind, line)
    case None => m
    case Some(it) => if NameOk(q.name, it.name) then m[it.name := it.version] else m
  }

  /** The items that the lines of `seg` record, later lines overriding earlier ones. */
  function ItemsOf(q: Query, seg: seq<string>): map<string, string>
    decreases |seg|
  {
    if seg == [] then map[] else AddItem(q, ItemsOf(q, seg[..|seg| - 1]), seg[|seg| - 1])
  }

  /** With the cursor on `p`, a line that is not a path header adds its item, if it
      is one, to `p`. */
  lemma SegmentStep(q: Query, st: ListState, p: string, line: string)
    requires Valid(st) && st.cursor == Some(p) && NotHeader(line)
    ensures Step(q, st, line) == ListState(st.elems[p := AddItem(q, st.elems[p], line)], Some(p))
  {
    if StartsWith(line, "#") {
      HashLineStep(q, st, line);
      ItemLineStart(q.kind, line);
      assert line[0] == '#' by {
        assert line[..1] == "#";
      }
    }
    assert st.elems[p := st.elems[p]] == st.elems;
  }

  lemma AddItemUnion(q: Query, a: map<string, string>, b: map<string, string>, line: string)
    ensures AddItem(q, a + b, line) == a + AddItem(q, b, line)
  {
    var m := MatchItem(q.kind, line);
    if m.Some? && NameOk(q.name, m.value.name) {
      UnionUpdate(a, b, m.value.name, m.value.version);
    }
  }

  lemma UnionUpdate(a: map<string, string>, b: map<string, string>, k: string, v: string)
    ensures (a + b)[k := v] == a + b[k := v]
  {
  }

  /** While the cursor is on `p`, the lines up to the next path header add their
      items to the entry of `p` and touch nothing else. */
  lemma {:induction false} SegmentFold(q: Query, st: ListState, p: string, seg: seq<string>)
    requires Valid(st) && st.cursor == Some(p) && NoHeaderLine(seg)
    ensures Fold(q, st, seg) == ListState(st.elems[p := st.elems[p] + ItemsOf(q, seg)], Some(p))
    decreases |seg|
  {
    if seg == [] {
      assert st.elems[p] + map[] == st.elems[p];
      assert st.elems[p := st.elems[p]] == st.elems;
    } else {
      var pre := seg[..|seg| - 1];
      var line := seg[|seg| - 1];
      NoHeaderLinePrefix(seg);
      SegmentFold(q, st, p, pre);
      var mid := ListState(st.elems[p := st.elems[p] + ItemsOf(q, pre)], Some(p));
      SegmentStep(q, mid, p, line);
      AddItemUnion(q, st.elems[p], ItemsOf(q, pre), line);
    }
  }

  /** After an accepted header the entry of its path holds exactly the items of the
      lines that follow, up to the next path header. */
  lemma HeaderSegment(q: Query, st: ListState, h: string, p: string, seg: seq<string>)
    requires Valid(st) && AcceptedHeader(q.dest, h, p) && NoHeaderLine(seg)
    ensures Fold(q, st, [h] + seg) == ListState(st.elems[p := ItemsOf(q, seg)], Some(p))
  {
    EnterHeader(q, st, h, p, seg);
    SegmentFold(q, ListState(st.elems[p := map[]], Some(p)), p, seg);
    EmptyUnion(ItemsOf(q, seg));
    UpdateTwice(st.elems, p, map[], ItemsOf(q, seg));
  }

  lemma EmptyUnion(m: map<string, string>)
    ensures map[] + m == m
  {
  }

  lemma UpdateTwice(elems: Elements, p: string, a: map<string, string>, b: map<string, string>)
    ensures elems[p := a][p := b] == elems[p := b]
  {
  }

  /** An accepted header puts the cursor on its path with an empty entry. */
  lemma EnterHeader(q: Query, st: ListState, h: string, p: string, seg: seq<string>)
    requires Valid(st) && AcceptedHeader(q.dest, h, p)
    ensures Fold(q, st, [h] + seg) == Fold(q, ListState(st.elems[p := map[]], Some(p)), seg)
  {
    AcceptedHeaderStep(q, st, h, p);
    FoldOne(q, st, h);
    FoldConcat(q, st, [h], seg);
  }

  /** No line of `seg` after index `i` is an item line for `e`. */
  ghost predicate NoLaterItem(q: Query, seg: seq<string>, e: string, i: int) {
    forall j, w :: 0 <= i < j < |seg| ==> !IsItemLine(q.kind, seg[j], Item(e, w))
  }

  /** The line at index `i` is the last item line for `e` in `seg`, with version `v`,
      and `e` passes the name filter. */
  ghost predicate LastAt(q: Query, seg: seq<string>, e: string, v: string, i: int) {
    0 <= i < |seg| && NameOk(q.name, e) && IsItemLine(q.kind, seg[i], Item(e, v)) && NoLaterItem(q, seg, e, i)
  }

  ghost predicate LastItemIs(q: Query, seg: seq<string>, e: string, v: string) {
    exists i :: LastAt(q, seg, e, v, i)
  }

  /** For a name listed twice the last version wins: an item is recorded with a
      version exactly when its last item line in the segment carries that version. */
  lemma {:induction false} ItemsOfLast(q: Query, seg: seq<string>, e: string, v: string)
    ensures (e in ItemsOf(q, seg) && ItemsOf(q, seg)[e] == v) <==> LastItemIs(q, seg, e, v)
    decreases |seg|
  {
    if seg != [] {
      var pre := seg[..|seg| - 1];
      var line := seg[|seg| - 1];
      ItemsOfLast(q, pre, e, v);
      var m := MatchItem(q.kind, line);
      if m.Some? && m.value.name == e && NameOk(q.name, e) {
        LastLineItem(q, seg, e, v, m.value.version);
      } else {
        NotLastLineItem(q, seg, e, v);
      }
    }
  }

  lemma LastLineItem(q: Query, seg: seq<string>, e: string, v: string, w: string)
    requires seg != [] && NameOk(q.name, e) && MatchItem(q.kind, seg[|seg| - 1]) == Some(Item(e, w))
    ensures LastItemIs(q, seg, e, v) <==> v == w
  {
    var last := |seg| - 1;
    MatchItemIff(q.kind, seg[last], Item(e, w));
    MatchItemIff(q.kind, seg[last], Item(e, v));
    if v == w {
      assert LastAt(q, seg, e, v, last);
    }
    if LastItemIs(q, seg, e, v) {
      var i :| LastAt(q, seg, e, v, i);
      assert i == last;
    }
  }

  lemma NotLastLineItem(q: Query, seg: seq<string>, e: string, v: string)
    requires seg != []
    requires var m := MatchItem(q.kind, seg[|seg| - 1]); !(m.Some? && m.value.name == e && NameOk(q.name, e))
    ensures LastItemIs(q, seg, e, v) <==> LastItemIs(q, seg[..|seg| - 1], e, v)
  {
    var pre := seg[..|seg| - 1];
    var last := |seg| - 1;
    if NameOk(q.name, e) {
      forall w ensures !IsItemLine(q.kind, seg[last], Item(e, w)) {
        MatchItemIff(q.kind, seg[last], Item(e, w));
      }
    }
    if LastItemIs(q, pre, e, v) {
      var i :| LastAt(q, pre, e, v, i);
      assert seg[i] == pre[i];
      assert LastAt(q, seg, e, v, i);
    }
    if LastItemIs(q, seg, e, v) {
      var i :| LastAt(q, seg, e, v, i);
      assert i < last;
      assert seg[i] == pre[i];
      assert LastAt(q, pre, e, v, i);
    }
  }

  // ---------------------------------------------------------------------------
  // Where recorded items come from
  // ---------------------------------------------------------------------------

  /** Some line of `lines` is an item line for `e` with version `v`. */
  ghost predicate Recorded(kind: Kind, lines: seq<string>, e: string, v: string) {
    exists i :: 0 <= i < |lines| && IsItemLine(kind, lines[i], Item(e, v))
  }

  /** Every item under every path passes the name filter and comes from a line. */
  ghost predicate FromLines(q: Query, elems: Elements, lines: seq<string>) {
    forall p, e {:trigger elems[p][e]} :: p in elems && e in elems[p] ==> NameOk(q.name, e) && Recorded(q.kind, lines, e, elems[p][e])
  }

  lemma FromLinesStep(q: Query, st: ListState, pre: seq<string>, line: string)
    requires Valid(st) && FromLines(q, st.elems, pre)
    ensures FromLines(q, Step(q, st, line).elems, pre + [line])
  {
    var lines := pre + [line];
    var r := Step(q, st, line);
    assert forall i :: 0 <= i < |pre| ==> lines[i] == pre[i];
    assert lines[|pre|] == line;
    if !StartsWith(line, "#") && st.cursor.Some? && MatchItem(q.kind, line).Some? {
      var it := MatchItem(q.kind, line).value;
      MatchItemIff(q.kind, line, it);
      assert Recorded(q.kind, lines, it.name, it.version);
      KeptRecorded(q, st.elems, pre, lines);
    } else if StartsWith(line, "#") && MatchListPath(line).Some? {
      KeptRecorded(q, st.elems, pre, lines);
    }
  }

  /** What was recorded for a prefix of the lines stays recorded for all of them. */
  lemma KeptRecorded(q: Query, elems: Elements, pre: seq<string>, lines: seq<string>)
    requires FromLines(q, elems, pre) && |pre| <= |lines| && forall i :: 0 <= i < |pre| ==> lines[i] == pre[i]
    ensures FromLines(q, elems, lines)
  {
    forall p, e | p in elems && e in elems[p]
      ensures NameOk(q.name, e) && Recorded(q.kind, lines, e, elems[p][e])
    {
      assert Recorded(q.kind, pre, e, elems[p][e]);
      var i :| 0 <= i < |pre| && IsItemLine(q.kind, pre[i], Item(e, elems[p][e]));
      assert lines[i] == pre[i];
    }
  }

  lemma {:induction false} FoldFromLines(q: Query, lines: seq<string>)
    ensures FromLines(q, Fold(q, Start, lines).elems, lines)
    decreases |lines|
  {
    if lines != [] {
      var pre := lines[..|lines| - 1];
      FoldFromLines(q, pre);
      FromLinesStep(q, Fold(q, Start, pre), pre, lines[|lines| - 1]);
      assert pre + [lines[|lines| - 1]] == lines;
    }
  }

  /** Every item of a listing names `name` when that is set, and is an item line of
      the listed kind, with that version, in the processed output. */
  lemma ListedItems(q: Query, out: string, p: string, e: string)
    requires p in Listed(q, out) && e in Listed(q, out)[p]
    ensures NameOk(q.name, e) && Recorded(q.kind, ListLines(out), e, Listed(q, out)[p][e])
  {
    FoldFromLines(q, ListLines(out));
  }
}
