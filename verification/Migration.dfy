/** tools/db_migration.py: revisions linked by their parents, `commit` merging them into one numbered version,
    and `upgrade` running all of it against a fresh database. Development scripts are off throughout. */
module Migration {
  import opened Options
  import opened Basics

  // The parent entry of a revision's metadata: the number 0, or the id of another revision.
  datatype Link = Root | After(id: string)

  // One line of a script: a comment or blank line, or a statement.
  datatype Line<S> = Comment | Sql(statement: S)

  datatype Revision<S> = Revision(id: string, parent: Link, up: seq<Line<S>>, down: seq<Line<S>>)

  // ----- The chain of revisions in a directory

  // next(d for d in metas if d.metadata.parent() == link)
  function FirstChild<S>(metas: seq<Revision<S>>, link: Link): Option<Revision<S>> {
    if metas == [] then None
    else if metas[0].parent == link then Some(metas[0])
    else FirstChild(metas[1..], link)
  }

  // At most n revisions, each found from the one before.
  function Follow<S>(metas: seq<Revision<S>>, link: Link, n: nat): seq<Revision<S>>
    decreases n
  {
    if n == 0 then []
    else
      match FirstChild(metas, link)
      case None => []
      case Some(entry) => [entry] + Follow(metas, After(entry.id), n - 1)
  }

  // build_revision_entries on a directory listed in the order `metas`
  function RevisionEntries<S>(metas: seq<Revision<S>>): seq<Revision<S>> {
    Follow(metas, Root, |metas|)
  }

  lemma {:induction false} FollowExtends<S>(metas: seq<Revision<S>>, link: Link, n: nat)
    requires FirstChild(metas, LastLink(link, Follow(metas, link, n))).Some?
    ensures Follow(metas, link, n + 1) ==
            Follow(metas, link, n) + [FirstChild(metas, LastLink(link, Follow(metas, link, n))).value]
    decreases n
  {
    if n != 0 && FirstChild(metas, link).Some? {
      FollowExtends(metas, After(FirstChild(metas, link).value.id), n - 1);
    }
  }

  lemma {:induction false} FollowStops<S>(metas: seq<Revision<S>>, link: Link, n: nat, m: nat)
    requires n <= m && FirstChild(metas, LastLink(link, Follow(metas, link, n))).None?
    ensures Follow(metas, link, m) == Follow(metas, link, n)
    decreases n
  {
    if n != 0 && FirstChild(metas, link).Some? {
      FollowStops(metas, After(FirstChild(metas, link).value.id), n - 1, m - 1);
    }
  }

  // The link that the next revision of a chain must carry.
  function LastLink<S>(link: Link, chain: seq<Revision<S>>): Link {
    if chain == [] then link else After(chain[|chain| - 1].id)
  }

  method BuildRevisionEntries<S>(metas: seq<Revision<S>>) returns (chain: seq<Revision<S>>)
    ensures chain == RevisionEntries(metas)
  {
    chain := [];
    var parentIndex := Root;
    for i := 0 to |metas|
      invariant chain == Follow(metas, Root, i)
      invariant parentIndex == LastLink(Root, chain)
    {
      var entry := FirstChild(metas, parentIndex);
      if entry.None? {
        FollowStops(metas, Root, i, |metas|);
        return;
      }
      FollowExtends(metas, Root, i);
      parentIndex := After(entry.value.id);
      chain := chain + [entry.value];
    }
  }

  // The entry is the first of the listing with that parent.
  ghost predicate IsFirstChild<S(!new)>(metas: seq<Revision<S>>, link: Link, entry: Revision<S>) {
    exists k :: 0 <= k < |metas| && metas[k] == entry && entry.parent == link
                && forall i :: 0 <= i < k ==> metas[i].parent != link
  }

  ghost predicate NoChild<S(!new)>(metas: seq<Revision<S>>, link: Link) {
    forall i :: 0 <= i < |metas| ==> metas[i].parent != link
  }

  lemma {:induction false} FirstChildIs<S(!new)>(metas: seq<Revision<S>>, link: Link)
    ensures FirstChild(metas, link).None? ==> NoChild(metas, link)
    ensures FirstChild(metas, link).Some? ==> IsFirstChild(metas, link, FirstChild(metas, link).value)
    decreases |metas|
  {
    if metas != [] && metas[0].parent != link {
      var rest := metas[1..];
      FirstChildIs(rest, link);
      if FirstChild(rest, link).Some? {
        var e := FirstChild(rest, link).value;
        var k :| 0 <= k < |rest| && rest[k] == e && e.parent == link && forall i :: 0 <= i < k ==> rest[i].parent != link;
        assert metas[k + 1] == e;
        assert forall i :: 1 <= i < k + 1 ==> metas[i] == rest[i - 1];
      } else {
        assert forall i :: 1 <= i < |metas| ==> metas[i] == rest[i - 1];
      }
    }
  }

  // Each entry is the first child of the one before, and the first of them of `link`.
  ghost predicate FirstChildren<S(!new)>(metas: seq<Revision<S>>, link: Link, chain: seq<Revision<S>>) {
    forall i :: 0 <= i < |chain| ==> IsFirstChild(metas, LastLink(link, chain[..i]), chain[i])
  }

  lemma LinksFromSecond<S>(link: Link, first: Revision<S>, rest: seq<Revision<S>>, i: nat)
    requires i <= |rest|
    ensures LastLink(link, ([first] + rest)[..i + 1]) == LastLink(After(first.id), rest[..i])
  {
    var chain := [first] + rest;
    assert i != 0 ==> chain[..i + 1][i] == rest[..i][i - 1];
  }

  lemma FirstChildrenFromSecond<S(!new)>(metas: seq<Revision<S>>, link: Link, first: Revision<S>, rest: seq<Revision<S>>)
    requires IsFirstChild(metas, link, first) && FirstChildren(metas, After(first.id), rest)
    ensures FirstChildren(metas, link, [first] + rest)
    ensures LastLink(link, [first] + rest) == LastLink(After(first.id), rest)
  {
    hide IsFirstChild;
    var chain := [first] + rest;
    forall i | 0 <= i < |chain|
      ensures IsFirstChild(metas, LastLink(link, chain[..i]), chain[i])
    {
      if i == 0 {
        assert chain[..0] == [];
      } else {
        LinksFromSecond(link, first, rest, i - 1);
      }
    }
    LinksFromSecond(link, first, rest, |rest|);
    assert chain[..|rest| + 1] == chain && rest[..|rest|] == rest;
  }

  lemma {:induction false} FollowIs<S(!new)>(metas: seq<Revision<S>>, link: Link, n: nat)
    ensures var chain := Follow(metas, link, n);
            && |chain| <= n && FirstChildren(metas, link, chain)
            && (|chain| == n || NoChild(metas, LastLink(link, chain)))
    decreases n
  {
    FirstChildIs(metas, link);
    hide IsFirstChild;
    hide NoChild;
    if n != 0 && FirstChild(metas, link).Some? {
      var first := FirstChild(metas, link).value;
      FollowIs(metas, After(first.id), n - 1);
      hide FirstChildren;
      FirstChildrenFromSecond(metas, link, first, Follow(metas, After(first.id), n - 1));
    }
  }

  // For every listing, branched or broken too: each entry is the first listed child of the one before, the first of them
  // of the root, and it ends where there is no child, or with as many entries as are listed.
  lemma EntriesFollowFirstChildren<S(!new)>(metas: seq<Revision<S>>)
    ensures var chain := RevisionEntries(metas);
            && |chain| <= |metas|
            && FirstChildren(metas, Root, chain)
            && (|chain| == |metas| || NoChild(metas, LastLink(Root, chain)))
  {
    FollowIs(metas, Root, |metas|);
  }

  // One unbranched line of revisions from the root, listed parent first.
  ghost predicate IsChain<S(!new)>(c: seq<Revision<S>>) {
    && (forall i :: 0 <= i < |c| ==> c[i].parent == LastLink(Root, c[..i]))
    && (forall i, j :: 0 <= i < j < |c| ==> c[i].id != c[j].id)
  }

  // A directory is listed in no particular order.
  ghost predicate Lists<S>(metas: seq<Revision<S>>, dir: seq<Revision<S>>) {
    multiset(metas) == multiset(dir)
  }

  lemma {:induction false} OnlyChildIsFound<S(!new)>(metas: seq<Revision<S>>, e: Revision<S>)
    requires e in metas && forall d :: d in metas && d.parent == e.parent ==> d == e
    ensures FirstChild(metas, e.parent) == Some(e)
  {
    if metas[0].parent != e.parent {
      assert e in metas[1..];
      OnlyChildIsFound(metas[1..], e);
    } else {
      assert metas[0] in metas;
    }
  }

  lemma ChainParentsDistinct<S(!new)>(c: seq<Revision<S>>, i: nat, j: nat)
    requires IsChain(c) && i < |c| && j < |c| && c[i].parent == c[j].parent
    ensures i == j
  {
    assert c[..i] == [] || c[..i][i - 1] == c[i - 1];
    assert c[..j] == [] || c[..j][j - 1] == c[j - 1];
  }

  lemma SameElements<S>(metas: seq<Revision<S>>, dir: seq<Revision<S>>)
    requires Lists(metas, dir)
    ensures |metas| == |dir| && forall d :: d in metas <==> d in dir
  {
    assert |multiset(metas)| == |metas| && |multiset(dir)| == |dir|;
    forall d
      ensures d in metas <==> d in dir
    {
      assert d in metas <==> d in multiset(metas);
      assert d in dir <==> d in multiset(dir);
    }
  }

  lemma ChildFoundInAnyOrder<S(!new)>(c: seq<Revision<S>>, metas: seq<Revision<S>>, k: nat)
    requires IsChain(c) && Lists(metas, c) && k < |c|
    ensures FirstChild(metas, c[k].parent) == Some(c[k])
  {
    SameElements(metas, c);
    forall d | d in metas && d.parent == c[k].parent
      ensures d == c[k]
    {
      var j :| 0 <= j < |c| && c[j] == d;
      ChainParentsDistinct(c, j, k);
    }
    OnlyChildIsFound(metas, c[k]);
  }

  lemma {:induction false} ChainFoundFrom<S(!new)>(c: seq<Revision<S>>, metas: seq<Revision<S>>, k: nat)
    requires IsChain(c) && Lists(metas, c) && k <= |c|
    ensures Follow(metas, LastLink(Root, c[..k]), |c| - k) == c[k..]
    decreases |c| - k
  {
    if k < |c| {
      ChildFoundInAnyOrder(c, metas, k);
      assert c[k].parent == LastLink(Root, c[..k]);
      hide IsChain;
      hide Lists;
      hide FirstChild;
      ChainFoundFrom(c, metas, k + 1);
      assert LastLink(Root, c[..k + 1]) == After(c[k].id);
      assert c[k..] == [c[k]] + c[k + 1..];
    }
  }

  // A chain is recovered completely and in order from every listing of its directory.
  lemma ChainFoundInAnyOrder<S(!new)>(c: seq<Revision<S>>, metas: seq<Revision<S>>)
    requires IsChain(c) && Lists(metas, c)
    ensures RevisionEntries(metas) == c
  {
    SameElements(metas, c);
    ChainFoundFrom(c, metas, 0);
    assert c[..0] == [] && c[0..] == c;
  }

  // ----- Creating revisions

  // `revision`: the new entry's parent is the last revision of the chain found, or 0.
  function NewRevision<S>(listing: seq<Revision<S>>, id: string, up: seq<Line<S>>, down: seq<Line<S>>): Revision<S> {
    Revision(id, LastLink(Root, RevisionEntries(listing)), up, down)
  }

  // One call: the id drawn, the order in which the directory happened to be listed, and the scripts later written.
  datatype Call<S> = Call(id: string, listing: seq<Revision<S>>, up: seq<Line<S>>, down: seq<Line<S>>)

  ghost function Create<S>(dir: seq<Revision<S>>, calls: seq<Call<S>>): seq<Revision<S>>
    decreases |calls|
  {
    if calls == [] then dir
    else
      var c := calls[0];
      Create(dir + [NewRevision(c.listing, c.id, c.up, c.down)], calls[1..])
  }

  // Every id is new and every listing shows the directory as it is at that call.
  ghost predicate ProperCalls<S(!new)>(dir: seq<Revision<S>>, calls: seq<Call<S>>)
    decreases |calls|
  {
    calls == [] ||
    (var c := calls[0];
     && Lists(c.listing, dir)
     && (forall r :: r in dir ==> r.id != c.id)
     && ProperCalls(dir + [NewRevision(c.listing, c.id, c.up, c.down)], calls[1..]))
  }

  // However the directory is listed, creating revisions keeps it one chain in creation order.
  lemma {:induction false} CreatingKeepsChain<S(!new)>(dir: seq<Revision<S>>, calls: seq<Call<S>>)
    requires IsChain(dir) && ProperCalls(dir, calls)
    ensures IsChain(Create(dir, calls))
    decreases |calls|
  {
    if calls != [] {
      var c := calls[0];
      ChainFoundInAnyOrder(dir, c.listing);
      var r := NewRevision(c.listing, c.id, c.up, c.down);
      var dir' := dir + [r];
      assert forall i :: 0 <= i <= |dir| ==> dir'[..i] == dir[..i];
      assert dir[..|dir|] == dir;
      CreatingKeepsChain(dir', calls[1..]);
    }
  }

  // The revision has the id and the scripts of that call.
  predicate Holds<S(==)>(r: Revision<S>, c: Call<S>) {
    r.id == c.id && r.up == c.up && r.down == c.down
  }

  // From an empty directory: any listing afterwards gives back exactly the revisions created, in order.
  lemma RevisionsComeBackInCreationOrder<S(!new)>(calls: seq<Call<S>>, listing: seq<Revision<S>>)
    requires ProperCalls([], calls) && Lists(listing, Create([], calls))
    ensures RevisionEntries(listing) == Create([], calls)
    ensures |RevisionEntries(listing)| == |calls|
    ensures forall i :: 0 <= i < |calls| ==> Holds(RevisionEntries(listing)[i], calls[i])
  {
    CreatingKeepsChain([], calls);
    ChainFoundInAnyOrder(Create([], calls), listing);
    CreateRecordsCalls([], calls);
  }

  lemma {:induction false} CreateRecordsCalls<S>(dir: seq<Revision<S>>, calls: seq<Call<S>>)
    ensures |Create(dir, calls)| == |dir| + |calls|
    ensures forall i :: 0 <= i < |dir| ==> Create(dir, calls)[i] == dir[i]
    ensures forall i :: 0 <= i < |calls| ==> Holds(Create(dir, calls)[|dir| + i], calls[i])
    decreases |calls|
  {
    if calls != [] {
      var c := calls[0];
      var dir' := dir + [NewRevision(c.listing, c.id, c.up, c.down)];
      CreateRecordsCalls(dir', calls[1..]);
      forall i | 0 <= i < |calls|
        ensures Holds(Create(dir, calls)[|dir| + i], calls[i])
      {
        if 0 < i {
          assert calls[i] == calls[1..][i - 1];
          assert Holds(Create(dir', calls[1..])[|dir'| + (i - 1)], calls[1..][i - 1]);
        } else {
          assert Create(dir', calls[1..])[|dir|] == dir'[|dir|];
        }
      }
    }
  }

  // ----- Selecting revisions

  // build_revision_entries_up_to: the prefix ending with the first revision of that id, or None.
  function UpTo<S>(revisions: seq<Revision<S>>, rev: string): (range: Option<seq<Revision<S>>>)
    ensures range.Some? <==> exists i :: 0 <= i < |revisions| && revisions[i].id == rev
    ensures range.Some? ==>
              && 0 < |range.value| <= |revisions|
              && range.value == revisions[..|range.value|]
              && range.value[|range.value| - 1].id == rev
              && forall i :: 0 <= i < |range.value| - 1 ==> range.value[i].id != rev
  {
    if revisions == [] then None
    else if revisions[0].id == rev then Some(revisions[..1])
    else
      var rest := UpTo(revisions[1..], rev);
      if rest.Some? then Some([revisions[0]] + rest.value) else None
  }

  method RevisionEntriesUpTo<S>(revisions: seq<Revision<S>>, rev: string) returns (range: Option<seq<Revision<S>>>)
    ensures range == UpTo(revisions, rev)
  {
    hide UpTo;
    var taken := [];
    for i := 0 to |revisions|
      invariant taken == revisions[..i]
      invariant forall k :: 0 <= k < i ==> revisions[k].id != rev
    {
      taken := taken + [revisions[i]];
      if revisions[i].id == rev {
        assert UpTo(revisions, rev).Some?;
        assert |UpTo(revisions, rev).value| == i + 1 && taken == revisions[..i + 1];
        return Some(taken);
      }
    }
    return None;
  }

  // ----- What scripts do

  // The database left behind, and whether the script ran to its end.
  datatype Outcome<D> = Outcome(db: D, ok: bool)

  function Exec<S, D>(run: (S, D) -> Outcome<D>, db: D, script: seq<Line<S>>): Outcome<D> {
    if script == [] then Outcome(db, true)
    else if script[0].Comment? then Exec(run, db, script[1..])
    else
      var o := run(script[0].statement, db);
      if o.ok then Exec(run, o.db, script[1..]) else o
  }

  // How statements change a database as a connection sees it, and what stays of it when the connection is closed after
  // that outcome: pragmas, temporary tables and uncommitted changes go.
  datatype Engine<!S, !D> = Engine(run: (S, D) -> Outcome<D>, close: Outcome<D> -> D)

  // execute_db_script: each script has a connection of its own
  function RunScript<S, D>(e: Engine<S, D>, db: D, script: seq<Line<S>>): Outcome<D> {
    var o := Exec(e.run, db, script);
    Outcome(e.close(o), o.ok)
  }

  lemma {:induction false} ExecConcat<S, D>(run: (S, D) -> Outcome<D>, db: D, a: seq<Line<S>>, b: seq<Line<S>>)
    ensures Exec(run, db, a + b) ==
            if Exec(run, db, a).ok then Exec(run, Exec(run, db, a).db, b) else Exec(run, db, a)
    decreases |a|
  {
    if a == [] {
      assert a + b == b;
    } else {
      assert (a + b)[1..] == a[1..] + b;
      if a[0].Comment? {
        ExecConcat(run, db, a[1..], b);
      } else if run(a[0].statement, db).ok {
        ExecConcat(run, run(a[0].statement, db).db, a[1..], b);
      }
    }
  }

  lemma ExecOne<S, D>(run: (S, D) -> Outcome<D>, db: D, statement: S)
    ensures Exec(run, db, [Sql(statement)]) == run(statement, db)
  {
    var o := run(statement, db);
    assert o.ok ==> o == Outcome(o.db, true);
  }

  // The licence header: two comment lines and a blank one.
  const HEADER_LINES := 3

  function Header<S>(): seq<Line<S>> { [Comment, Comment, Comment] }

  // The lines where the header is expected hold no statement, as when the tool created the file.
  predicate Headered<S>(script: seq<Line<S>>) {
    forall i :: 0 <= i < HEADER_LINES && i < |script| ==> script[i].Comment?
  }

  // read_sql: everything after those lines
  function Body<S>(script: seq<Line<S>>): seq<Line<S>> {
    if HEADER_LINES <= |script| then script[HEADER_LINES..] else []
  }

  lemma {:induction false} CommentsDoNothing<S, D>(run: (S, D) -> Outcome<D>, db: D, c: seq<Line<S>>, script: seq<Line<S>>)
    requires forall i :: 0 <= i < |c| ==> c[i].Comment?
    ensures Exec(run, db, c + script) == Exec(run, db, script)
    decreases |c|
  {
    if c == [] {
      assert c + script == script;
    } else {
      assert (c + script)[1..] == c[1..] + script;
      CommentsDoNothing(run, db, c[1..], script);
    }
  }

  lemma HeaderDoesNothing<S, D>(run: (S, D) -> Outcome<D>, db: D, script: seq<Line<S>>)
    ensures Exec(run, db, Header<S>() + script) == Exec(run, db, script)
  {
    CommentsDoNothing(run, db, Header<S>(), script);
  }

  // ----- Merging

  // What one revision adds to a merged script: its body and a line end.
  function Piece<S>(script: seq<Line<S>>): seq<Line<S>> {
    Body(script) + [Comment]
  }

  // The pieces of the up scripts in order.
  function UpBodies<S>(revisions: seq<Revision<S>>): seq<Line<S>> {
    if revisions == [] then []
    else UpBodies(revisions[..|revisions| - 1]) + Piece(revisions[|revisions| - 1].up)
  }

  // The same for the down scripts, last revision first.
  function DownBodies<S>(revisions: seq<Revision<S>>): seq<Line<S>> {
    if revisions == [] then []
    else Piece(revisions[|revisions| - 1].down) + DownBodies(revisions[..|revisions| - 1])
  }

  lemma PrefixStep<S>(revisions: seq<Revision<S>>, i: nat)
    requires i < |revisions|
    ensures UpBodies(revisions[..i + 1]) == UpBodies(revisions[..i]) + Piece(revisions[i].up)
    ensures DownBodies(revisions[..i + 1]) == Piece(revisions[i].down) + DownBodies(revisions[..i])
  {
    assert revisions[..i + 1][..i] == revisions[..i];
  }

  datatype Version<S> = Version(up: seq<Line<S>>, down: seq<Line<S>>)

  method MergeUps<S>(revisions: seq<Revision<S>>) returns (up: seq<Line<S>>)
    ensures up == Header<S>() + UpBodies(revisions)
  {
    hide Piece;
    up := Header<S>();
    for i := 0 to |revisions|
      invariant up == Header<S>() + UpBodies(revisions[..i])
    {
      PrefixStep(revisions, i);
      Regroup(Header<S>(), UpBodies(revisions[..i]), Piece(revisions[i].up));
      up := up + Piece(revisions[i].up);
    }
    assert revisions[..|revisions|] == revisions;
  }

  method MergeDowns<S>(revisions: seq<Revision<S>>) returns (down: seq<Line<S>>)
    ensures down == Header<S>() + DownBodies(revisions)
  {
    hide Piece;
    down := Header<S>();
    assert revisions[..|revisions|] == revisions;
    for i := |revisions| downto 0
      invariant down + DownBodies(revisions[..i]) == Header<S>() + DownBodies(revisions)
    {
      PrefixStep(revisions, i);
      Regroup(down, Piece(revisions[i].down), DownBodies(revisions[..i]));
      down := down + Piece(revisions[i].down);
    }
  }

  method MergeSql<S>(metas: seq<Revision<S>>) returns (merged: Version<S>)
    ensures merged == Merged(metas)
  {
    var revisions := BuildRevisionEntries(metas);
    var up := MergeUps(revisions);
    var down := MergeDowns(revisions);
    merged := Version(up, down);
  }

  // merge_sql_from_dir
  function Merged<S>(metas: seq<Revision<S>>): Version<S> {
    var revisions := RevisionEntries(metas);
    Version(Header<S>() + UpBodies(revisions), Header<S>() + DownBodies(revisions))
  }

  lemma PieceRunsAsScript<S, D>(run: (S, D) -> Outcome<D>, db: D, script: seq<Line<S>>)
    requires Headered(script)
    ensures Exec(run, db, Piece(script)) == Exec(run, db, script)
  {
    var k := if HEADER_LINES <= |script| then HEADER_LINES else |script|;
    assert script == script[..k] + Body(script);
    CommentsDoNothing(run, db, script[..k], Body(script));
    ExecConcat(run, db, Body(script), [Comment]);
  }

  // Running the up scripts of the revisions one after the other, as `upgrade` does.
  function RunUps<S, D>(e: Engine<S, D>, db: D, revisions: seq<Revision<S>>): Outcome<D> {
    if revisions == [] then Outcome(db, true)
    else
      var o := RunUps(e, db, revisions[..|revisions| - 1]);
      if o.ok then RunScript(e, o.db, revisions[|revisions| - 1].up) else o
  }

  ghost predicate UpsHeadered<S>(revisions: seq<Revision<S>>) {
    forall i :: 0 <= i < |revisions| ==> Headered(revisions[i].up)
  }

  ghost predicate DownsHeadered<S>(revisions: seq<Revision<S>>) {
    forall i :: 0 <= i < |revisions| ==> Headered(revisions[i].down)
  }

  // The script, run from db, leaves nothing that closing its connection would take away.
  ghost predicate LeavesNothing<S, D>(e: Engine<S, D>, db: D, script: seq<Line<S>>) {
    var o := Exec(e.run, db, script);
    o.ok ==> e.close(o) == o.db
  }

  ghost predicate UpsLeaveNothing<S, D>(e: Engine<S, D>, db: D, revisions: seq<Revision<S>>)
    decreases |revisions|
  {
    revisions == [] ||
    (var front, last := revisions[..|revisions| - 1], revisions[|revisions| - 1];
     && UpsLeaveNothing(e, db, front)
     && (RunUps(e, db, front).ok ==> LeavesNothing(e, RunUps(e, db, front).db, last.up)))
  }

  // One more script on the same connection, after scripts that left nothing.
  lemma OneMoreUp<S, D>(e: Engine<S, D>, db: D, revisions: seq<Revision<S>>)
    requires revisions != [] && UpsHeadered(revisions)
    requires var front := revisions[..|revisions| - 1];
             var o := Exec(e.run, db, UpBodies(front));
             RunUps(e, db, front) == if o.ok then o else Outcome(e.close(o), false)
    ensures RunScript(e, db, UpBodies(revisions)) == RunUps(e, db, revisions)
    ensures var front, last := revisions[..|revisions| - 1], revisions[|revisions| - 1];
            Exec(e.run, db, UpBodies(front)).ok ==>
              Exec(e.run, db, UpBodies(revisions)) == Exec(e.run, RunUps(e, db, front).db, last.up)
  {
    hide Exec;
    hide Piece;
    var front, last := revisions[..|revisions| - 1], revisions[|revisions| - 1];
    ExecConcat(e.run, db, UpBodies(front), Piece(last.up));
    if Exec(e.run, db, UpBodies(front)).ok {
      PieceRunsAsScript(e.run, RunUps(e, db, front).db, last.up);
    }
  }

  lemma {:induction false} UpsOnOneConnection<S, D>(e: Engine<S, D>, db: D, revisions: seq<Revision<S>>)
    requires UpsHeadered(revisions) && UpsLeaveNothing(e, db, revisions)
    ensures var o := Exec(e.run, db, UpBodies(revisions));
            RunUps(e, db, revisions) == if o.ok then o else Outcome(e.close(o), false)
    decreases |revisions|
  {
    if revisions != [] {
      var front := revisions[..|revisions| - 1];
      UpsOnOneConnection(e, db, front);
      hide UpBodies;
      hide Exec;
      OneMoreUp(e, db, revisions);
    }
  }

  // The merged up script does what the single ones do in turn, failures included, if no script but the last leaves
  // anything that lives only as long as its connection.
  lemma MergedUpRunsAll<S, D>(e: Engine<S, D>, db: D, revisions: seq<Revision<S>>)
    requires revisions != [] && UpsHeadered(revisions) && UpsLeaveNothing(e, db, revisions[..|revisions| - 1])
    ensures RunScript(e, db, UpBodies(revisions)) == RunUps(e, db, revisions)
  {
    UpsOnOneConnection(e, db, revisions[..|revisions| - 1]);
    OneMoreUp(e, db, revisions);
  }

  // An interpretation that just records the statements it is given.
  function Record<S>(s: S, db: seq<S>): Outcome<seq<S>> {
    Outcome(db + [s], true)
  }

  function CountSql<S>(script: seq<Line<S>>): nat {
    if script == [] then 0 else CountSql(script[1..]) + (if script[0].Sql? then 1 else 0)
  }

  lemma {:induction false} RecordCounts<S>(db: seq<S>, script: seq<Line<S>>)
    ensures Exec(Record, db, script).ok && |Exec(Record, db, script).db| == |db| + CountSql(script)
    decreases |script|
  {
    if script != [] {
      RecordCounts(if script[0].Sql? then db + [script[0].statement] else db, script[1..]);
    }
  }

  lemma {:induction false} CountSqlSplits<S>(a: seq<Line<S>>, b: seq<Line<S>>)
    ensures CountSql(a + b) == CountSql(a) + CountSql(b)
    decreases |a|
  {
    if a == [] {
      assert a + b == b;
    } else {
      assert (a + b)[1..] == a[1..] + b;
      CountSqlSplits(a[1..], b);
    }
  }

  lemma {:induction false} CountZeroIff<S>(a: seq<Line<S>>)
    ensures CountSql(a) == 0 <==> forall i :: 0 <= i < |a| ==> a[i].Comment?
    decreases |a|
  {
    if a != [] {
      CountZeroIff(a[1..]);
    }
  }

  lemma PieceCounts<S>(script: seq<Line<S>>)
    ensures CountSql(Piece(script)) <= CountSql(script)
    ensures CountSql(Piece(script)) == CountSql(script) <==> Headered(script)
  {
    var k := if HEADER_LINES <= |script| then HEADER_LINES else |script|;
    assert script == script[..k] + Body(script);
    CountSqlSplits(script[..k], Body(script));
    CountSqlSplits(Body(script), [Comment]);
    CountZeroIff(script[..k]);
  }

  // On one connection or on many.
  function Recorder<S>(): Engine<S, seq<S>> {
    Engine(Record, (o: Outcome<seq<S>>) => o.db)
  }

  // Statements recorded by the merged script, and by the single ones in turn.
  ghost function MergedCount<S>(revisions: seq<Revision<S>>): nat {
    |RunScript(Recorder(), [], UpBodies(revisions)).db|
  }

  ghost function SingleCount<S>(revisions: seq<Revision<S>>): nat {
    |RunUps(Recorder(), [], revisions).db|
  }

  lemma {:induction false} RecordedStep<S>(revisions: seq<Revision<S>>)
    requires revisions != []
    requires var front := revisions[..|revisions| - 1];
             RunScript(Recorder(), [], UpBodies(front)).ok && RunUps(Recorder(), [], front).ok
    ensures var front, last := revisions[..|revisions| - 1], revisions[|revisions| - 1];
            && RunScript(Recorder(), [], UpBodies(revisions)).ok && RunUps(Recorder(), [], revisions).ok
            && MergedCount(revisions) == MergedCount(front) + CountSql(Piece(last.up))
            && SingleCount(revisions) == SingleCount(front) + CountSql(last.up)
  {
    hide Piece;
    hide CountSql;
    hide Exec;
    var front, last := revisions[..|revisions| - 1], revisions[|revisions| - 1];
    ExecConcat(Record, [], UpBodies(front), Piece(last.up));
    RecordCounts(Exec(Record, [], UpBodies(front)).db, Piece(last.up));
    RecordCounts(RunUps(Recorder(), [], front).db, last.up);
  }

  lemma {:induction false} RecordedUps<S>(revisions: seq<Revision<S>>)
    ensures RunScript(Recorder(), [], UpBodies(revisions)).ok && RunUps(Recorder(), [], revisions).ok
    ensures MergedCount(revisions) <= SingleCount(revisions)
    ensures MergedCount(revisions) == SingleCount(revisions) ==> UpsHeadered(revisions)
    decreases |revisions|
  {
    if revisions != [] {
      var front, last := revisions[..|revisions| - 1], revisions[|revisions| - 1];
      hide Piece;
      hide CountSql;
      hide Headered;
      hide MergedCount;
      hide SingleCount;
      RecordedUps(front);
      RecordedStep(revisions);
      PieceCounts(last.up);
    }
  }

  lemma {:induction false} RecorderLeavesNothing<S>(db: seq<S>, revisions: seq<Revision<S>>)
    ensures UpsLeaveNothing(Recorder(), db, revisions)
    decreases |revisions|
  {
    if revisions != [] {
      RecorderLeavesNothing(db, revisions[..|revisions| - 1]);
    }
  }

  // The condition on headers is exact: an edited-away header is paid for with statements, and a recording shows it.
  lemma MergedUpFaithfulIff<S>(revisions: seq<Revision<S>>)
    ensures RunScript(Recorder(), [], UpBodies(revisions)) == RunUps(Recorder(), [], revisions) <==> UpsHeadered(revisions)
  {
    RecordedUps(revisions);
    if UpsHeadered(revisions) && revisions != [] {
      RecorderLeavesNothing([], revisions[..|revisions| - 1]);
      MergedUpRunsAll(Recorder(), [], revisions);
    }
  }

  // A revision that starts with its statement loses it.
  lemma UnheaderedStatementIsLost<S(!new)>(statement: S)
    ensures var revision := Revision("a", Root, [Sql(statement)], []);
            && RunUps(Recorder(), [], [revision]) == Outcome([statement], true)
            && RunScript(Recorder(), [], Merged([revision]).up) == Outcome([], true)
  {
    var revision := Revision("a", Root, [Sql(statement)], []);
    assert [revision][..0] == [];
    ExecOne(Record, [], statement);
    assert [] + [statement] == [statement];
    ChainFoundInAnyOrder([revision], [revision]);
    assert UpBodies([revision]) == [Comment];
    HeaderDoesNothing<S, seq<S>>(Record, [], [Comment]);
  }

  // ----- What a connection keeps

  // An interpretation with connections: some statements, such as pragmas, are kept by the connection and lost with it;
  // each other statement is stored along with those its connection then keeps.
  datatype Log<S> = Log(stored: seq<(S, seq<S>)>, session: seq<S>)

  function Logger<S>(kept: S -> bool): Engine<S, Log<S>> {
    Engine((s: S, d: Log<S>) => Outcome(if kept(s) then d.(session := d.session + [s])
                                        else d.(stored := d.stored + [(s, d.session)]), true),
           (o: Outcome<Log<S>>) => o.db.(session := []))
  }

  // What a script stores when the connection keeps `session` at its start, and what it adds to that.
  function Notes<S>(kept: S -> bool, script: seq<Line<S>>, session: seq<S>): seq<(S, seq<S>)> {
    if script == [] then []
    else if script[0].Comment? then Notes(kept, script[1..], session)
    else if kept(script[0].statement) then Notes(kept, script[1..], session + [script[0].statement])
    else [(script[0].statement, session)] + Notes(kept, script[1..], session)
  }

  function Keeps<S>(kept: S -> bool, script: seq<Line<S>>): seq<S> {
    if script == [] then []
    else (if script[0].Sql? && kept(script[0].statement) then [script[0].statement] else []) + Keeps(kept, script[1..])
  }

  lemma {:induction false} ExecLogs<S>(kept: S -> bool, db: Log<S>, script: seq<Line<S>>)
    ensures Exec(Logger(kept).run, db, script)
         == Outcome(Log(db.stored + Notes(kept, script, db.session), db.session + Keeps(kept, script)), true)
    decreases |script|
  {
    if script == [] {
      assert db.stored + [] == db.stored && db.session + [] == db.session;
    } else {
      var rest := script[1..];
      if script[0].Comment? {
        ExecLogs(kept, db, rest);
        assert Keeps(kept, script) == Keeps(kept, rest);
      } else {
        var st := script[0].statement;
        var next := if kept(st) then Log(db.stored, db.session + [st]) else Log(db.stored + [(st, db.session)], db.session);
        ExecLogs(kept, next, rest);
        Regroup(db.session, if kept(st) then [st] else [], Keeps(kept, rest));
        Regroup(db.stored, [(st, db.session)], Notes(kept, rest, next.session));
        assert db.session + [] == db.session;
      }
    }
  }

  lemma {:induction false} NotesCount<S>(kept: S -> bool, script: seq<Line<S>>, x: seq<S>, y: seq<S>)
    ensures |Notes(kept, script, x)| == |Notes(kept, script, y)|
    ensures |x| != |y| && Notes(kept, script, x) == Notes(kept, script, y) ==> Notes(kept, script, x) == []
    decreases |script|
  {
    if script != [] {
      var more := if script[0].Sql? && kept(script[0].statement) then [script[0].statement] else [];
      assert x + [] == x && y + [] == y;
      NotesCount(kept, script[1..], x + more, y + more);
      if IsStored(kept, script[0]) {
        assert Notes(kept, script, x)[0].1 == x && Notes(kept, script, y)[0].1 == y;
      }
    }
  }

  ghost predicate IsKept<S>(kept: S -> bool, line: Line<S>) { line.Sql? && kept(line.statement) }

  ghost predicate IsStored<S>(kept: S -> bool, line: Line<S>) { line.Sql? && !kept(line.statement) }

  lemma {:induction false} NotesAndKeepsEmptyIff<S>(kept: S -> bool, script: seq<Line<S>>, x: seq<S>)
    ensures Keeps(kept, script) == [] <==> forall k :: 0 <= k < |script| ==> !IsKept(kept, script[k])
    ensures Notes(kept, script, x) == [] <==> forall k :: 0 <= k < |script| ==> !IsStored(kept, script[k])
    decreases |script|
  {
    if script != [] {
      var more := if IsKept(kept, script[0]) then [script[0].statement] else [];
      assert x + [] == x;
      NotesAndKeepsEmptyIff(kept, script[1..], x + more);
    }
  }

  // A statement of revision i is kept by the connection, and one of a later revision j is stored.
  ghost predicate Leaks<S>(kept: S -> bool, revisions: seq<Revision<S>>, i: nat, j: nat) {
    && i < j < |revisions|
    && (exists k :: 0 <= k < |revisions[i].up| && IsKept(kept, revisions[i].up[k]))
    && (exists k :: 0 <= k < |revisions[j].up| && IsStored(kept, revisions[j].up[k]))
  }

  function EmptyLog<S>(): Log<S> { Log([], []) }

  // One revision more on the merged script's connection, and on a connection of its own.
  lemma LogsOneMore<S>(kept: S -> bool, revisions: seq<Revision<S>>)
    requires revisions != [] && UpsHeadered(revisions)
    requires var front := revisions[..|revisions| - 1];
             && RunUps(Logger(kept), EmptyLog(), front).ok && RunUps(Logger(kept), EmptyLog(), front).db.session == []
             && Exec(Logger(kept).run, EmptyLog(), UpBodies(front)).ok
    ensures var front, last := revisions[..|revisions| - 1], revisions[|revisions| - 1];
            var m, r := Exec(Logger(kept).run, EmptyLog(), UpBodies(front)).db, RunUps(Logger(kept), EmptyLog(), front).db;
            && Exec(Logger(kept).run, EmptyLog(), UpBodies(revisions))
               == Outcome(Log(m.stored + Notes(kept, last.up, m.session), m.session + Keeps(kept, last.up)), true)
            && RunUps(Logger(kept), EmptyLog(), revisions)
               == Outcome(Log(r.stored + Notes(kept, last.up, []), []), true)
  {
    hide Exec;
    hide Piece;
    hide Notes;
    hide Keeps;
    var e, front, last := Logger(kept), revisions[..|revisions| - 1], revisions[|revisions| - 1];
    var m, r := Exec(e.run, EmptyLog(), UpBodies(front)).db, RunUps(e, EmptyLog(), front).db;
    ExecConcat(e.run, EmptyLog(), UpBodies(front), Piece(last.up));
    PieceRunsAsScript(e.run, m, last.up);
    ExecLogs(kept, m, last.up);
    ExecLogs(kept, r, last.up);
  }

  lemma SameNotesIff<S>(kept: S -> bool, script: seq<Line<S>>, session: seq<S>)
    ensures |Notes(kept, script, session)| == |Notes(kept, script, [])|
    ensures Notes(kept, script, session) == Notes(kept, script, [])
            <==> session == [] || forall k :: 0 <= k < |script| ==> !IsStored(kept, script[k])
  {
    hide Notes;
    NotesCount(kept, script, session, []);
    NotesAndKeepsEmptyIff(kept, script, session);
    NotesAndKeepsEmptyIff(kept, script, []);
  }

  ghost predicate NothingKept<S>(kept: S -> bool, revisions: seq<Revision<S>>) {
    forall i, k :: 0 <= i < |revisions| && 0 <= k < |revisions[i].up| ==> !IsKept(kept, revisions[i].up[k])
  }

  ghost predicate NothingStored<S>(kept: S -> bool, script: seq<Line<S>>) {
    forall k :: 0 <= k < |script| ==> !IsStored(kept, script[k])
  }

  ghost predicate NoLeaks<S>(kept: S -> bool, revisions: seq<Revision<S>>) {
    forall i, j :: !Leaks(kept, revisions, i, j)
  }

  lemma NoLeaksSplits<S>(kept: S -> bool, revisions: seq<Revision<S>>)
    requires revisions != []
    ensures var front, last := revisions[..|revisions| - 1], revisions[|revisions| - 1];
            && (NoLeaks(kept, revisions) <==>
                NoLeaks(kept, front) && (NothingKept(kept, front) || NothingStored(kept, last.up)))
            && (NothingKept(kept, revisions) <==>
                NothingKept(kept, front) && forall k :: 0 <= k < |last.up| ==> !IsKept(kept, last.up[k]))
  {
    var front, last := revisions[..|revisions| - 1], revisions[|revisions| - 1];
    if i, j :| Leaks(kept, front, i, j) {
      assert Leaks(kept, revisions, i, j);
    }
    if i: nat, j: nat :| Leaks(kept, revisions, i, j) && j < |front| {
      assert Leaks(kept, front, i, j);
    }
    if !NothingKept(kept, front) && !NothingStored(kept, last.up) {
      var i, k :| 0 <= i < |front| && 0 <= k < |front[i].up| && IsKept(kept, front[i].up[k]);
      assert revisions[i] == front[i];
      assert Leaks(kept, revisions, i, |front|);
    }
  }

  lemma EqualByParts<T>(a: seq<T>, b: seq<T>, c: seq<T>, d: seq<T>)
    requires |a| == |c| && |b| == |d|
    ensures a + b == c + d <==> a == c && b == d
  {
    assert (a + b)[..|a|] == a && (c + d)[..|a|] == c && (a + b)[|a|..] == b && (c + d)[|a|..] == d;
  }

  lemma {:induction false} LoggedUps<S>(kept: S -> bool, revisions: seq<Revision<S>>)
    requires UpsHeadered(revisions)
    ensures var m, r := Exec(Logger(kept).run, EmptyLog(), UpBodies(revisions)), RunUps(Logger(kept), EmptyLog(), revisions);
            && m.ok && r.ok && r.db.session == [] && |m.db.stored| == |r.db.stored|
            && (m.db.session == [] <==> NothingKept(kept, revisions))
            && (m.db.stored == r.db.stored <==> NoLeaks(kept, revisions))
    decreases |revisions|
  {
    if revisions != [] {
      var front, last := revisions[..|revisions| - 1], revisions[|revisions| - 1];
      LoggedUps(kept, front);
      LogsOneMore(kept, revisions);
      NoLeaksSplits(kept, revisions);
      hide Exec;
      hide RunUps;
      hide NoLeaks;
      hide NothingKept;
      hide Notes;
      hide Keeps;
      hide UpBodies;
      var m, r := Exec(Logger(kept).run, EmptyLog(), UpBodies(front)).db, RunUps(Logger(kept), EmptyLog(), front).db;
      SameNotesIff(kept, last.up, m.session);
      NotesAndKeepsEmptyIff(kept, last.up, []);
      EqualByParts(m.stored, Notes(kept, last.up, m.session), r.stored, Notes(kept, last.up, []));
    }
  }

  // With headers in place, the merged script stores the same under the same conditions if and only if no statement kept
  // by a connection comes in a revision before one that stores something.
  lemma MergedUpSessionIff<S>(kept: S -> bool, revisions: seq<Revision<S>>)
    requires UpsHeadered(revisions)
    ensures RunScript(Logger(kept), EmptyLog(), UpBodies(revisions)) == RunUps(Logger(kept), EmptyLog(), revisions)
            <==> NoLeaks(kept, revisions)
  {
    LoggedUps(kept, revisions);
  }

  // So these two revisions, made by the tool, do not survive a commit.
  lemma SessionLeaksIntoMergedScript<S(!new)>(kept: S -> bool, pragma: S, insert: S)
    requires kept(pragma) && !kept(insert)
    ensures var dir := [Revision("a", Root, Header<S>() + [Sql(pragma)], []),
                        Revision("b", After("a"), Header<S>() + [Sql(insert)], [])];
            && IsChain(dir) && UpsHeadered(dir)
            && RunScript(Logger(kept), EmptyLog(), UpBodies(dir)) != RunUps(Logger(kept), EmptyLog(), dir)
  {
    var dir := [Revision("a", Root, Header<S>() + [Sql(pragma)], []),
                Revision("b", After("a"), Header<S>() + [Sql(insert)], [])];
    assert dir[..1] == [dir[0]] && dir[..0] == [];
    assert IsKept(kept, dir[0].up[3]) && IsStored(kept, dir[1].up[3]);
    assert Leaks(kept, dir, 0, 1);
    MergedUpSessionIff(kept, dir);
  }

  // On the way up from db, each revision's up script runs, and its down script takes it back.
  ghost predicate EachUndone<S, D>(e: Engine<S, D>, db: D, revisions: seq<Revision<S>>)
    decreases |revisions|
  {
    revisions == [] ||
    (var front, last := revisions[..|revisions| - 1], revisions[|revisions| - 1];
     && EachUndone(e, db, front)
     && RunUps(e, db, front).ok
     && RunUps(e, db, revisions).ok
     && RunScript(e, RunUps(e, db, revisions).db, last.down) == Outcome(RunUps(e, db, front).db, true))
  }

  // On the way down, no script but the one of the first revision leaves anything.
  ghost predicate DownsLeaveNothing<S, D>(e: Engine<S, D>, db: D, revisions: seq<Revision<S>>)
    decreases |revisions|
  {
    |revisions| <= 1 ||
    (var front, last := revisions[..|revisions| - 1], revisions[|revisions| - 1];
     DownsLeaveNothing(e, db, front) && LeavesNothing(e, RunUps(e, db, revisions).db, last.down))
  }

  lemma {:induction false} MergedDownUndoesUps<S, D>(e: Engine<S, D>, db: D, revisions: seq<Revision<S>>)
    requires revisions != [] && DownsHeadered(revisions)
    requires EachUndone(e, db, revisions) && DownsLeaveNothing(e, db, revisions)
    ensures RunUps(e, db, revisions).ok
    ensures RunScript(e, RunUps(e, db, revisions).db, DownBodies(revisions)) == Outcome(db, true)
    decreases |revisions|
  {
    var front, last := revisions[..|revisions| - 1], revisions[|revisions| - 1];
    var top := RunUps(e, db, revisions).db;
    ExecConcat(e.run, top, Piece(last.down), DownBodies(front));
    PieceRunsAsScript(e.run, top, last.down);
    if front != [] {
      MergedDownUndoesUps(e, db, front);
    }
  }

  // If every down script undoes its up script where it is used, the merged one undoes the merged one.
  lemma MergedDownUndoesMergedUp<S, D>(e: Engine<S, D>, db: D, revisions: seq<Revision<S>>)
    requires revisions != [] && UpsHeadered(revisions) && DownsHeadered(revisions) && EachUndone(e, db, revisions)
    requires UpsLeaveNothing(e, db, revisions[..|revisions| - 1]) && DownsLeaveNothing(e, db, revisions)
    ensures var up := RunScript(e, db, Header<S>() + UpBodies(revisions));
            up.ok && RunScript(e, up.db, Header<S>() + DownBodies(revisions)) == Outcome(db, true)
  {
    HeaderDoesNothing(e.run, db, UpBodies(revisions));
    MergedUpRunsAll(e, db, revisions);
    MergedDownUndoesUps(e, db, revisions);
    HeaderDoesNothing(e.run, RunUps(e, db, revisions).db, DownBodies(revisions));
  }

  // ----- Upgrade and commit

  datatype Database<D> = Database(content: D, userVersion: nat)

  // The numbered versions and the version the database set names.
  datatype Repository<S> = Repository(version: nat, committed: map<nat, Version<S>>)

  // execute_db_script with a version: 0 counts as no version and is not recorded
  function ExecuteScript<S, D>(e: Engine<S, D>, db: Database<D>, script: seq<Line<S>>, version: nat)
    : Outcome<Database<D>>
  {
    var o := RunScript(e, db.content, script);
    Outcome(Database(o.db, if o.ok && version != 0 then version else db.userVersion), o.ok)
  }

  // The first n versions in order; a missing one stops the tool.
  function MigrateUp<S, D>(e: Engine<S, D>, db: Database<D>, committed: map<nat, Version<S>>, n: nat)
    : Outcome<Database<D>>
  {
    if n == 0 then Outcome(db, true)
    else
      var o := MigrateUp(e, db, committed, n - 1);
      if !o.ok then o
      else if n - 1 !in committed then Outcome(o.db, false)
      else ExecuteScript(e, o.db, committed[n - 1].up, n - 1)
  }

  method MigrateDatabaseUp<S, D>(e: Engine<S, D>, empty: D, committed: map<nat, Version<S>>, dstVersion: nat)
    returns (o: Outcome<Database<D>>)
    ensures o == MigrateUp(e, Database(empty, 0), committed, dstVersion + 1)
  {
    o := Outcome(Database(empty, 0), true);
    for i := 0 to dstVersion + 1
      invariant o.ok && o == MigrateUp(e, Database(empty, 0), committed, i)
    {
      if i !in committed {
        o := Outcome(o.db, false);
      } else {
        o := ExecuteScript(e, o.db, committed[i].up, i);
      }
      if !o.ok {
        FailureStays(e, Database(empty, 0), committed, i + 1, dstVersion + 1);
        return;
      }
    }
  }

  lemma {:induction false} FailureStays<S, D>(e: Engine<S, D>, db: Database<D>,
                                              committed: map<nat, Version<S>>, i: nat, n: nat)
    requires i <= n && !MigrateUp(e, db, committed, i).ok
    ensures MigrateUp(e, db, committed, n) == MigrateUp(e, db, committed, i)
    decreases n
  {
    if i < n {
      FailureStays(e, db, committed, i, n - 1);
    }
  }

  // ----- What an upgrade does, version by version

  // The contents on the way up: each version's script, on its own connection, leads from one to the next.
  ghost predicate VersionsRun<S, D>(e: Engine<S, D>, committed: map<nat, Version<S>>, contents: seq<D>) {
    && contents != []
    && forall i :: 0 <= i < |contents| - 1 ==>
         i in committed && RunScript(e, contents[i], committed[i].up) == Outcome(contents[i + 1], true)
  }

  // The version recorded after the first n versions: the last of them.
  function Recorded(n: nat): nat { if n == 0 then 0 else n - 1 }

  // If versions 0 to n - 1 are there and run, they have all been run, in that order, and the last is recorded.
  lemma {:induction false} VersionsRunInOrder<S, D>(e: Engine<S, D>, committed: map<nat, Version<S>>, contents: seq<D>)
    requires VersionsRun(e, committed, contents)
    ensures var n := |contents| - 1;
            MigrateUp(e, Database(contents[0], 0), committed, n) == Outcome(Database(contents[n], Recorded(n)), true)
    decreases |contents|
  {
    hide RunScript;
    var n := |contents| - 1;
    if n != 0 {
      var front := contents[..n];
      assert forall i :: 0 <= i < n ==> front[i] == contents[i];
      VersionsRunInOrder(e, committed, front);
      assert n - 1 in committed && RunScript(e, contents[n - 1], committed[n - 1].up) == Outcome(contents[n], true);
    }
  }

  // A missing version, 0 included, fails with exactly those before it applied; so does one whose script fails, with
  // what that left behind.
  lemma VersionsStop<S, D>(e: Engine<S, D>, committed: map<nat, Version<S>>, contents: seq<D>, n: nat)
    requires VersionsRun(e, committed, contents) && |contents| <= n
    ensures var k := |contents| - 1;
            var o := MigrateUp(e, Database(contents[0], 0), committed, n);
            && (k !in committed ==> o == Outcome(Database(contents[k], Recorded(k)), false))
            && (k in committed && !RunScript(e, contents[k], committed[k].up).ok ==>
                  o == Outcome(Database(RunScript(e, contents[k], committed[k].up).db, Recorded(k)), false))
  {
    hide RunScript;
    var k := |contents| - 1;
    VersionsRunInOrder(e, committed, contents);
    if !MigrateUp(e, Database(contents[0], 0), committed, k + 1).ok {
      FailureStays(e, Database(contents[0], 0), committed, k + 1, n);
    }
  }

  // One of these cases always applies.
  lemma {:induction false} VersionsRunOrStop<S, D>(e: Engine<S, D>, empty: D, committed: map<nat, Version<S>>, n: nat)
    returns (contents: seq<D>)
    ensures VersionsRun(e, committed, contents) && contents[0] == empty && |contents| <= n + 1
    ensures var k := |contents| - 1;
            k == n || k !in committed || !RunScript(e, contents[k], committed[k].up).ok
  {
    hide RunScript;
    if n == 0 {
      contents := [empty];
    } else {
      contents := VersionsRunOrStop(e, empty, committed, n - 1);
      var k := |contents| - 1;
      if k == n - 1 && k in committed && RunScript(e, contents[k], committed[k].up).ok {
        var o := RunScript(e, contents[k], committed[k].up);
        assert o == Outcome(o.db, true);
        contents := contents + [o.db];
      }
    }
  }

  // The same for the revisions of a directory.
  ghost predicate RevisionsRun<S, D>(e: Engine<S, D>, revisions: seq<Revision<S>>, contents: seq<D>) {
    && 0 < |contents| <= |revisions| + 1
    && forall i :: 0 <= i < |contents| - 1 ==> RunScript(e, contents[i], revisions[i].up) == Outcome(contents[i + 1], true)
  }

  lemma {:induction false} RevisionsRunInOrder<S, D>(e: Engine<S, D>, revisions: seq<Revision<S>>, contents: seq<D>)
    requires RevisionsRun(e, revisions, contents)
    ensures RunUps(e, contents[0], revisions[..|contents| - 1]) == Outcome(contents[|contents| - 1], true)
    decreases |contents|
  {
    hide RunScript;
    var n := |contents| - 1;
    if n != 0 {
      var front := contents[..n];
      assert forall i :: 0 <= i < n ==> front[i] == contents[i];
      RevisionsRunInOrder(e, revisions, front);
      assert revisions[..n][..n - 1] == revisions[..n - 1];
      assert RunScript(e, contents[n - 1], revisions[n - 1].up) == Outcome(contents[n], true);
    }
  }

  // A failing revision ends the run with what it left behind.
  lemma {:induction false} RevisionsStop<S, D>(e: Engine<S, D>, revisions: seq<Revision<S>>, contents: seq<D>)
    requires RevisionsRun(e, revisions, contents) && |contents| <= |revisions|
    requires var k := |contents| - 1; !RunScript(e, contents[k], revisions[k].up).ok
    ensures var k := |contents| - 1; RunUps(e, contents[0], revisions) == RunScript(e, contents[k], revisions[k].up)
    decreases |revisions|
  {
    hide RunScript;
    var k := |contents| - 1;
    if |revisions| == k + 1 {
      RevisionsRunInOrder(e, revisions, contents);
    } else {
      var front := revisions[..|revisions| - 1];
      assert forall i :: 0 <= i <= k ==> front[i] == revisions[i];
      RevisionsStop(e, front, contents);
    }
  }

  // The revisions `upgrade` applies: all, or those up to the target; none if there is no such target.
  function Selected<S>(revisions: seq<Revision<S>>, target: Option<string>): seq<Revision<S>> {
    if target.None? then revisions
    else if UpTo(revisions, target.value).Some? then UpTo(revisions, target.value).value
    else []
  }

  // `upgrade` without development scripts: the committed versions, then the revisions of the current directory, if there
  // is one. An empty current directory and no target stops the tool.
  function Upgrade<S, D>(e: Engine<S, D>, empty: D, repo: Repository<S>,
                         current: Option<seq<Revision<S>>>, target: Option<string>): Outcome<Database<D>>
  {
    var o := MigrateUp(e, Database(empty, 0), repo.committed, repo.version + 1);
    if !o.ok || current.None? then o
    else
      var revisions := RevisionEntries(current.value);
      if revisions == [] && target.None? then Outcome(o.db, false)
      else
        var top := RunUps(e, o.db.content, Selected(revisions, target));
        Outcome(o.db.(content := top.db), top.ok)
  }

  // So a whole upgrade is told by the contents after the committed versions: without a current directory it ends there;
  // an empty one fails unless a target is named; otherwise the revisions follow, or none for an unknown target.
  lemma UpgradeGoesOnFromVersions<S(!new), D>(e: Engine<S, D>, repo: Repository<S>, contents: seq<D>,
                                              dir: seq<Revision<S>>, l: seq<Revision<S>>)
    requires VersionsRun(e, repo.committed, contents) && |contents| == repo.version + 2
    requires IsChain(dir) && Lists(l, dir)
    ensures var below := contents[|contents| - 1];
            && (forall target :: Upgrade(e, contents[0], repo, None, target) == Outcome(Database(below, repo.version), true))
            && Upgrade(e, contents[0], repo, Some(l), None)
               == (if dir == [] then Outcome(Database(below, repo.version), false)
                   else Outcome(Database(RunUps(e, below, dir).db, repo.version), RunUps(e, below, dir).ok))
            && forall target :: (forall i :: 0 <= i < |dir| ==> dir[i].id != target) ==>
                 Upgrade(e, contents[0], repo, Some(l), Some(target)) == Outcome(Database(below, repo.version), true)
  {
    hide RunScript;
    hide RevisionEntries;
    hide MigrateUp;
    hide UpTo;
    VersionsRunInOrder(e, repo.committed, contents);
    ChainFoundInAnyOrder(dir, l);
    RunUpsOfNone<S, D>(e, contents[|contents| - 1]);
    hide RunUps;
    hide VersionsRun;
    hide IsChain;
  }

  // `commit`: the merged scripts become the next version; the current directory is removed.
  function Commit<S>(repo: Repository<S>, current: seq<Revision<S>>): Repository<S> {
    Repository(repo.version + 1, repo.committed[repo.version + 1 := Merged(current)])
  }

  lemma {:induction false} EarlierVersionsUnaffected<S, D>(e: Engine<S, D>, db: Database<D>,
                                                           committed: map<nat, Version<S>>, k: nat, v: Version<S>, n: nat)
    requires n <= k
    ensures MigrateUp(e, db, committed[k := v], n) == MigrateUp(e, db, committed, n)
  {
    if n != 0 {
      EarlierVersionsUnaffected(e, db, committed, k, v, n - 1);
    }
  }

  // With one version more, an upgrade without current revisions is one script longer.
  lemma OneVersionMore<S, D>(e: Engine<S, D>, empty: D, repo: Repository<S>, v: Version<S>)
    ensures var n := repo.version + 1;
            var o := MigrateUp(e, Database(empty, 0), repo.committed, n);
            Upgrade(e, empty, Repository(n, repo.committed[n := v]), None, None)
            == if o.ok then ExecuteScript(e, o.db, v.up, n) else o
  {
    hide Exec;
    var n := repo.version + 1;
    EarlierVersionsUnaffected(e, Database(empty, 0), repo.committed, n, v, n);
  }

  // Committing changes nothing about what an upgrade produces but the recorded version, however the directory
  // was listed each time. Failing scripts fail at the same point with the same database.
  lemma CommitPreservesUpgrade<S(!new), D>(e: Engine<S, D>, empty: D, repo: Repository<S>,
                                           dir: seq<Revision<S>>, l1: seq<Revision<S>>, l2: seq<Revision<S>>)
    requires dir != [] && IsChain(dir) && UpsHeadered(dir) && Lists(l1, dir) && Lists(l2, dir)
    requires var base := Upgrade(e, empty, repo, None, None);
             base.ok ==> UpsLeaveNothing(e, base.db.content, dir[..|dir| - 1])
    ensures var before := Upgrade(e, empty, repo, Some(l1), None);
            var after := Upgrade(e, empty, Commit(repo, l2), None, None);
            && after.ok == before.ok
            && after.db.content == before.db.content
            && (after.ok ==> after.db.userVersion == repo.version + 1)
  {
    hide Exec;
    hide UpBodies;
    hide DownBodies;
    hide RevisionEntries;
    hide RunUps;
    hide MigrateUp;
    hide UpTo;
    ChainFoundInAnyOrder(dir, l1);
    ChainFoundInAnyOrder(dir, l2);
    OneVersionMore(e, empty, repo, Merged(l2));
    var o := MigrateUp(e, Database(empty, 0), repo.committed, repo.version + 1);
    if o.ok {
      HeaderDoesNothing(e.run, o.db.content, UpBodies(dir));
      MergedUpRunsAll(e, o.db.content, dir);
    }
  }

  // After a commit, the new version's down script brings an upgraded database back to the version before.
  lemma CommittedDownRestoresPreviousVersion<S(!new), D>(e: Engine<S, D>, empty: D, repo: Repository<S>,
                                                         dir: seq<Revision<S>>, l: seq<Revision<S>>)
    requires dir != [] && IsChain(dir) && UpsHeadered(dir) && DownsHeadered(dir) && Lists(l, dir)
    requires Upgrade(e, empty, repo, None, None).ok
    requires var base := Upgrade(e, empty, repo, None, None).db.content;
             && EachUndone(e, base, dir)
             && UpsLeaveNothing(e, base, dir[..|dir| - 1]) && DownsLeaveNothing(e, base, dir)
    ensures var after := Commit(repo, l);
            var top := Upgrade(e, empty, after, None, None);
            && top.ok
            && RunScript(e, top.db.content, after.committed[after.version].down)
               == Outcome(Upgrade(e, empty, repo, None, None).db.content, true)
  {
    ChainFoundInAnyOrder(dir, l);
    CommitPreservesUpgrade(e, empty, repo, dir, l, l);
    MergedDownUndoesMergedUp(e, Upgrade(e, empty, repo, None, None).db.content, dir);
    MergedUpRunsAll(e, Upgrade(e, empty, repo, None, None).db.content, dir);
    HeaderDoesNothing(e.run, Upgrade(e, empty, repo, None, None).db.content, UpBodies(dir));
  }

  // Upgrading to a revision of a chain runs exactly the revisions up to it; to an unknown one, none.
  lemma UpgradeToTarget<S(!new), D>(e: Engine<S, D>, empty: D, repo: Repository<S>,
                                    dir: seq<Revision<S>>, l: seq<Revision<S>>, target: string)
    requires dir != [] && IsChain(dir) && Lists(l, dir) && Upgrade(e, empty, repo, None, None).ok
    ensures var committed := Upgrade(e, empty, repo, None, None).db;
            var reached := Upgrade(e, empty, repo, Some(l), Some(target));
            && (forall k :: 0 <= k < |dir| && dir[k].id == target ==>
                  var o := RunUps(e, committed.content, dir[..k + 1]);
                  reached == Outcome(committed.(content := o.db), o.ok))
            && ((forall k :: 0 <= k < |dir| ==> dir[k].id != target) ==> reached == Outcome(committed, true))
  {
    ChainFoundInAnyOrder(dir, l);
    hide RunUps;
    hide RevisionEntries;
    hide UpTo;
    var range := UpTo(dir, target);
    if range.None? {
      RunUpsOfNone<S, D>(e, Upgrade(e, empty, repo, None, None).db.content);
    }
    forall k | 0 <= k < |dir| && dir[k].id == target
      ensures range == Some(dir[..k + 1])
    {
      assert |range.value| == k + 1;
    }
    hide MigrateUp;
    hide IsChain;
    hide Lists;
  }

  lemma RunUpsOfNone<S, D>(e: Engine<S, D>, db: D)
    ensures RunUps<S, D>(e, db, []) == Outcome(db, true)
  {
  }

  // `revert`: running the last revision's down script after a full upgrade gives the database of an upgrade to the
  // revision before it, or, for a single revision, that of the committed versions.
  lemma RevertReturnsToPreviousRevision<S(!new), D>(e: Engine<S, D>, empty: D, repo: Repository<S>,
                                                    dir: seq<Revision<S>>, l1: seq<Revision<S>>, l2: seq<Revision<S>>)
    requires dir != [] && IsChain(dir) && Lists(l1, dir) && Lists(l2, dir)
    requires Upgrade(e, empty, repo, None, None).ok
    requires EachUndone(e, Upgrade(e, empty, repo, None, None).db.content, dir)
    ensures var top := Upgrade(e, empty, repo, Some(l1), None);
            var below := if |dir| == 1 then Upgrade(e, empty, repo, None, None)
                         else Upgrade(e, empty, repo, Some(l2), Some(dir[|dir| - 2].id));
            && top.ok && below.ok
            && RunScript(e, top.db.content, RevisionEntries(l1)[|RevisionEntries(l1)| - 1].down)
               == Outcome(below.db.content, true)
  {
    hide RunScript;
    ChainFoundInAnyOrder(dir, l1);
    if |dir| > 1 {
      UpgradeToTarget(e, empty, repo, dir, l2, dir[|dir| - 2].id);
      assert dir[..|dir| - 1] == dir[..(|dir| - 2) + 1];
    }
  }
}
