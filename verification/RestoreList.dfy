/** Rewriting the listing of a backup archive before it is restored. */
module RestoreList {
  import opened Basics
  import opened Graphs
  import opened RestoreSchedule

  /** A listing line, already told apart: the data of a public table, or anything else. */
  datatype Line = TableData(name: string, text: string) | Other(text: string)
  {
    predicate Restored() {
      TableData? && name !in EXCLUDED
    }
  }

  /** Tables whose data the restored database writes itself. */
  const EXCLUDED: set<string> := {"research_agent_schema_migrations", "security_state"}

  /** A line as it stands in the restore list when it is not moved: excluded table data becomes a comment. */
  function Kept(line: Line): string {
    if line.TableData? && line.name in EXCLUDED then ";" + line.text else line.text
  }

  /** The tables to restore, in archive order. */
  function Names(lines: seq<Line>): seq<string> {
    if lines == [] then []
    else
      var last := lines[|lines| - 1];
      Names(lines[..|lines| - 1]) + if last.Restored() then [last.name] else []
  }

  /** Where their lines stand. */
  function Positions(lines: seq<Line>): (r: seq<nat>)
    ensures forall k | 0 <= k < |r| :: r[k] < |lines|
  {
    if lines == [] then []
    else Positions(lines[..|lines| - 1]) + if lines[|lines| - 1].Restored() then [|lines| - 1] else []
  }

  /** The positions are exactly those of restored lines, ascending, and agree with the names. */
  lemma {:induction false} PositionsExact(lines: seq<Line>)
    ensures |Positions(lines)| == |Names(lines)|
    ensures forall k | 0 <= k < |Names(lines)| ::
      lines[Positions(lines)[k]].Restored() && lines[Positions(lines)[k]].name == Names(lines)[k]
    ensures forall i | 0 <= i < |lines| && lines[i].Restored() :: i in Positions(lines)
    ensures forall j, k | 0 <= j < k < |Positions(lines)| :: Positions(lines)[j] < Positions(lines)[k]
  {
    if lines != [] {
      var init, last := lines[..|lines| - 1], |lines| - 1;
      PositionsExact(init);
      if lines[last].Restored() {
        assert Positions(lines) == Positions(init) + [last];
        assert Names(lines) == Names(init) + [lines[last].name];
      } else {
        assert Positions(lines) == Positions(init);
        assert Names(lines) == Names(init);
      }
    }
  }

  ghost function DependencyEdges(dependencies: seq<(string, string)>): Edges {
    set d | d in dependencies && d.0 != d.1
  }

  // ----- reading the listing

  datatype Scan = Scan(selected: seq<string>, positions: seq<nat>, names: seq<string>, texts: map<string, string>)

  ghost predicate Scanned(lines: seq<Line>, s: Scan) {
    && |s.selected| == |lines| && (forall i | 0 <= i < |lines| :: s.selected[i] == Kept(lines[i]))
    && s.positions == Positions(lines) && s.names == Names(lines) && Distinct(s.names)
    && TextsOf(lines, s)
  }

  ghost predicate TextsOf(lines: seq<Line>, s: Scan) {
    && (forall name :: name in s.texts <==> name in s.names)
    && (forall i | 0 <= i < |lines| && lines[i].Restored() ::
          lines[i].name in s.texts && s.texts[lines[i].name] == lines[i].text)
  }

  function NextScan(lines: seq<Line>, s: Scan, line: Line): Scan {
    if line.Restored() then
      Scan(s.selected + [Kept(line)], s.positions + [|lines|], s.names + [line.name], s.texts[line.name := line.text])
    else Scan(s.selected + [Kept(line)], s.positions, s.names, s.texts)
  }

  lemma {:induction false} TextsNext(lines: seq<Line>, s: Scan, line: Line)
    requires TextsOf(lines, s) && (line.Restored() ==> line.name !in s.texts)
    ensures TextsOf(lines + [line], NextScan(lines, s, line))
  {
  }

  lemma {:induction false} ScannedNext(lines: seq<Line>, s: Scan, line: Line)
    requires Scanned(lines, s) && (line.Restored() ==> line.name !in s.texts)
    ensures Scanned(lines + [line], NextScan(lines, s, line))
  {
    var all := lines + [line];
    assert all[..|all| - 1] == lines;
    TextsNext(lines, s, line);
  }

  lemma {:induction false} RepeatedName(lines: seq<Line>, n: nat)
    requires n < |lines| && lines[n].Restored() && lines[n].name in Names(lines[..n])
    ensures !Distinct(Names(lines))
    decreases |lines|
  {
    var last := |lines| - 1;
    var init := lines[..last];
    if n < last {
      assert init[..n] == lines[..n];
      RepeatedName(init, n);
      var i, j :| 0 <= i < j < |Names(init)| && Names(init)[i] == Names(init)[j];
      assert Names(lines)[i] == Names(lines)[j];
    } else {
      var i :| 0 <= i < |Names(init)| && Names(init)[i] == lines[n].name;
      assert Names(lines)[i] == Names(lines)[|Names(init)|];
    }
  }

  /** One pass over the listing; fails at the second line of a table. */
  method ScanListing(lines: seq<Line>) returns (r: Option<Scan>)
    ensures r.Some? <==> Distinct(Names(lines))
    ensures r.Some? ==> Scanned(lines, r.value)
  {
    var s := Scan([], [], [], map[]);
    for n := 0 to |lines|
      invariant Scanned(lines[..n], s)
    {
      var line := lines[n];
      ghost var before := s;
      var text := line.text;
      if line.TableData? {
        if line.name in EXCLUDED {
          text := ";" + text;
        } else {
          if line.name in s.texts {
            RepeatedName(lines, n);
            return None;
          }
          s := s.(positions := s.positions + [|s.selected|], names := s.names + [line.name],
                  texts := s.texts[line.name := text]);
        }
      }
      s := s.(selected := s.selected + [text]);
      ScannedNext(lines[..n], before, line);
      assert lines[..n + 1] == lines[..n] + [line];
    }
    assert lines[..|lines|] == lines;
    return Some(s);
  }

  // ----- ordering the tables

  ghost function ParentsAmong(name: string, edges: Edges, names: seq<string>): set<string> {
    set e | e in Within(edges, names) && e.0 == name :: e.1
  }

  method ParentSets(names: seq<string>, dependencies: seq<(string, string)>) returns (parents: map<string, set<string>>)
    ensures forall name :: name in parents <==> name in names
    ensures forall name | name in names :: parents[name] == ParentsAmong(name, DependencyEdges(dependencies), names)
  {
    parents := map name | name in names :: {};
    for n := 0 to |dependencies|
      invariant forall name :: name in parents <==> name in names
      invariant forall name | name in names :: parents[name] == ParentsAmong(name, DependencyEdges(dependencies[..n]), names)
    {
      var child, parent := dependencies[n].0, dependencies[n].1;
      assert dependencies[..n + 1] == dependencies[..n] + [dependencies[n]];
      if child in parents && parent in parents && child != parent {
        parents := parents[child := parents[child] + {parent}];
      }
    }
    assert dependencies[..|dependencies|] == dependencies;
  }

  /** The first table none of whose parents is still waiting. */
  method NextReady(waiting: seq<string>, parents: map<string, set<string>>, ghost names: seq<string>, ghost edges: Edges)
    returns (next: Option<nat>)
    requires forall name | name in waiting :: name in names && name in parents && parents[name] == ParentsAmong(name, edges, names)
    ensures next.Some? ==> FirstReady(waiting, edges, next.value)
    ensures next == None ==> forall i: nat :: !FirstReady(waiting, edges, i)
  {
    for i := 0 to |waiting|
      invariant forall j | 0 <= j < i :: !Ready(waiting[j], waiting, edges)
    {
      ReadyTest(waiting, waiting[i], names, edges);
      if StillWaiting(parents[waiting[i]], waiting) == {} {
        return Some(i);
      }
    }
    return None;
  }

  function StillWaiting(parents: set<string>, waiting: seq<string>): set<string> {
    set parent | parent in parents && parent in waiting
  }

  lemma {:induction false} ReadyTest(waiting: seq<string>, name: string, names: seq<string>, edges: Edges)
    requires name in names && forall x | x in waiting :: x in names
    ensures Ready(name, waiting, edges) <==> StillWaiting(ParentsAmong(name, edges, names), waiting) == {}
  {
    var parents := ParentsAmong(name, edges, names);
    if Ready(name, waiting, edges) {
      forall parent | parent in parents
        ensures parent !in waiting
      {
        assert (name, parent) in edges;
      }
      assert StillWaiting(parents, waiting) == {};
    } else {
      var e :| e in edges && e.0 == name && e.1 in waiting;
      assert e in Within(edges, names) && e.1 in parents;
      assert e.1 in StillWaiting(parents, waiting);
    }
  }

  /** Take the tables out one by one; None when no waiting table is ready. */
  method OrderTables(names: seq<string>, dependencies: seq<(string, string)>) returns (r: Option<seq<string>>)
    ensures r == Schedule(names, DependencyEdges(dependencies))
  {
    var parents := ParentSets(names, dependencies);
    ghost var edges := DependencyEdges(dependencies);
    var ordered: seq<string>, waiting := [], names;
    PrependNothing(Schedule(names, edges));
    while waiting != []
      invariant forall name | name in waiting :: name in names
      invariant Schedule(names, edges) == Prepend(ordered, Schedule(waiting, edges))
      decreases |waiting|
    {
      var next := NextReady(waiting, parents, names, edges);
      if next == None {
        return None;
      }
      ScheduleStep(waiting, edges, next.value);
      WithoutFacts(waiting, next.value);
      PrependTwice(ordered, waiting[next.value], Schedule(Without(waiting, next.value), edges));
      ordered := ordered + [waiting[next.value]];
      waiting := Without(waiting, next.value);
    }
    assert ordered + [] == ordered;
    return Some(ordered);
  }

  lemma {:induction false} PrependNothing(rest: Option<seq<string>>)
    ensures Prepend([], rest) == rest
  {
    if rest.Some? {
      assert [] + rest.value == rest.value;
    }
  }

  lemma {:induction false} PrependTwice(front: seq<string>, x: string, rest: Option<seq<string>>)
    ensures Prepend(front, Prepend([x], rest)) == Prepend(front + [x], rest)
  {
    if rest.Some? {
      assert front + ([x] + rest.value) == (front + [x]) + rest.value;
    }
  }

  // ----- the restore list

  /** Table lines stand at the table positions in the given order; every other line stands where it was. */
  ghost predicate Placed(lines: seq<Line>, order: seq<string>, out: seq<string>) {
    && |out| == |lines| && |order| == |Positions(lines)|
    && (forall i | 0 <= i < |lines| && !lines[i].Restored() :: out[i] == Kept(lines[i]))
    && (forall k, i | 0 <= k < |order| && 0 <= i < |lines| && lines[i].Restored() && lines[i].name == order[k] ::
          out[Positions(lines)[k]] == lines[i].text)
  }

  /** The first k table positions hold the texts of the first k tables; other lines are as they were. */
  ghost predicate Filled(
    lines: seq<Line>, positions: seq<nat>, texts: map<string, string>, order: seq<string>, k: nat, selected: seq<string>)
  {
    && |selected| == |lines| && k <= |order| == |positions|
    && (forall i | 0 <= i < |lines| && !lines[i].Restored() :: selected[i] == Kept(lines[i]))
    && (forall j | 0 <= j < k :: positions[j] < |selected| && order[j] in texts && selected[positions[j]] == texts[order[j]])
  }

  ghost predicate TablePositions(lines: seq<Line>, positions: seq<nat>) {
    && (forall k | 0 <= k < |positions| :: positions[k] < |lines| && lines[positions[k]].Restored())
    && (forall j, k | 0 <= j < k < |positions| :: positions[j] < positions[k])
  }

  lemma {:induction false} FillNext(
    lines: seq<Line>, positions: seq<nat>, texts: map<string, string>, order: seq<string>, k: nat, selected: seq<string>)
    requires TablePositions(lines, positions) && Filled(lines, positions, texts, order, k, selected)
    requires k < |order| && order[k] in texts
    ensures Filled(lines, positions, texts, order, k + 1, selected[positions[k] := texts[order[k]]])
  {
  }

  lemma {:induction false} FilledIsPlaced(lines: seq<Line>, s: Scan, order: seq<string>, selected: seq<string>)
    requires TextsOf(lines, s) && s.positions == Positions(lines) && Filled(lines, s.positions, s.texts, order, |order|, selected)
    ensures Placed(lines, order, selected)
  {
    forall k, i | 0 <= k < |order| && 0 <= i < |lines| && lines[i].Restored() && lines[i].name == order[k]
      ensures selected[Positions(lines)[k]] == lines[i].text
    {
      assert s.texts[lines[i].name] == lines[i].text;
    }
  }

  /** Overwrite the table positions with the table lines in the given order. */
  method PlaceTables(lines: seq<Line>, s: Scan, order: seq<string>) returns (selected: seq<string>)
    requires Scanned(lines, s) && |order| == |s.names| && forall name | name in order :: name in s.names
    ensures Placed(lines, order, selected)
  {
    PositionsExact(lines);
    selected := s.selected;
    for k := 0 to |order|
      invariant Filled(lines, s.positions, s.texts, order, k, selected)
    {
      assert order[k] in s.names;
      FillNext(lines, s.positions, s.texts, order, k, selected);
      selected := selected[s.positions[k] := s.texts[order[k]]];
    }
    FilledIsPlaced(lines, s, order, selected);
  }

  /** The order is the schedule of the archived tables under the database's foreign keys. */
  method WriteRestoreList(lines: seq<Line>, dependencies: seq<(string, string)>) returns (r: Result<seq<string>>)
    ensures r.Err? <==>
      lines == [] || !Distinct(Names(lines)) || !Acyclic(Within(DependencyEdges(dependencies), Names(lines)))
    ensures r.Ok? ==>
      var order := Schedule(Names(lines), DependencyEdges(dependencies)); order.Some? && Placed(lines, order.value, r.value)
  {
    if lines == [] {
      return Err(Invalid);
    }
    var scan := ScanListing(lines);
    if scan == None {
      return Err(Invalid);
    }
    var s := scan.value;
    FailsExactlyOnCycles(s.names, DependencyEdges(dependencies));
    var ordered := OrderTables(s.names, dependencies);
    if ordered == None {
      return Err(Invalid);
    }
    var order := ordered.value;
    ScheduleOrders(s.names, DependencyEdges(dependencies));
    SameMembers(s.names, order);
    PositionsExact(lines);
    var selected := PlaceTables(lines, s, order);
    return Ok(selected);
  }

  // ----- what the restore list is

  function IndexOf<T(==)>(s: seq<T>, x: T): (k: nat)
    requires x in s
    ensures k < |s| && s[k] == x
  {
    if s[0] == x then 0 else IndexOf(s[1..], x) + 1
  }

  ghost predicate Listed(lines: seq<Line>, edges: Edges, order: seq<string>) {
    Distinct(Names(lines)) && ParentsFirst(Names(lines), edges, order) && |Positions(lines)| == |Names(lines)|
  }

  /** How a line of the archive reads in the restore list: the data of the two tables that the restored database writes itself
      is commented out, everything else is as it was. */
  predicate Shows(line: Line, text: string) {
    match line
    case Other(original) => text == original
    case TableData(name, original) =>
      if name == "research_agent_schema_migrations" || name == "security_state" then text == ";" + original else text == original
  }

  /** The archive line whose text ends up at a position. */
  function SourceOf(lines: seq<Line>, order: seq<string>, i: nat): nat
    requires i < |lines| && |order| == |Positions(lines)| == |Names(lines)|
    requires forall name | name in order :: name in Names(lines)
  {
    if lines[i].Restored() && i in Positions(lines) then
      Positions(lines)[IndexOf(Names(lines), order[IndexOf(Positions(lines), i)])]
    else i
  }

  lemma {:induction false} SourceFacts(lines: seq<Line>, edges: Edges, order: seq<string>, out: seq<string>, i: nat)
    requires Listed(lines, edges, order) && Placed(lines, order, out) && i < |lines|
    requires |order| == |Names(lines)| && forall name | name in order :: name in Names(lines)
    ensures var source := SourceOf(lines, order, i); source < |lines| && Shows(lines[source], out[i])
    ensures var source := SourceOf(lines, order, i);
      if lines[i].Restored() then
        i in Positions(lines) && lines[source].Restored() && lines[source].name == order[IndexOf(Positions(lines), i)]
      else source == i
  {
    PositionsExact(lines);
    if lines[i].Restored() {
      var k := IndexOf(Positions(lines), i);
      assert order[k] in Names(lines);
      var m := IndexOf(Names(lines), order[k]);
      assert lines[Positions(lines)[m]].Restored() && lines[Positions(lines)[m]].name == order[k];
    }
  }

  lemma {:induction false} SourcesDiffer(lines: seq<Line>, edges: Edges, order: seq<string>, out: seq<string>, i: nat, j: nat)
    requires Listed(lines, edges, order) && Placed(lines, order, out) && i < j < |lines|
    requires |order| == |Names(lines)| && (forall name | name in order :: name in Names(lines)) && Distinct(order)
    ensures SourceOf(lines, order, i) != SourceOf(lines, order, j)
  {
    SourceFacts(lines, edges, order, out, i);
    SourceFacts(lines, edges, order, out, j);
  }

  lemma {:induction false} ParentBefore(lines: seq<Line>, edges: Edges, order: seq<string>, out: seq<string>, i: nat, j: nat)
    requires Listed(lines, edges, order) && Placed(lines, order, out) && i < |lines| && j < |lines|
    requires |order| == |Names(lines)| && (forall name | name in order :: name in Names(lines)) && Distinct(order)
    requires lines[i].Restored() && lines[j].Restored()
    requires SourceOf(lines, order, i) < |lines| && SourceOf(lines, order, j) < |lines|
    requires lines[SourceOf(lines, order, i)].TableData? && lines[SourceOf(lines, order, j)].TableData?
    requires (lines[SourceOf(lines, order, j)].name, lines[SourceOf(lines, order, i)].name) in edges
    ensures i < j
  {
    SourceFacts(lines, edges, order, out, i);
    SourceFacts(lines, edges, order, out, j);
    PositionsExact(lines);
    var ki, kj := IndexOf(Positions(lines), i), IndexOf(Positions(lines), j);
    assert order[ki] in Names(lines) && order[kj] in Names(lines);
    assert (order[kj], order[ki]) in Within(edges, Names(lines));
    assert order[ki] in order[..kj];
  }

  /** The restore list is a rearrangement of the archive's lines, with excluded table data commented out: only lines of
      restored tables move, among the places of such lines, and no table precedes a table it refers to. */
  lemma {:induction false} Rearranges(lines: seq<Line>, edges: Edges, order: seq<string>, out: seq<string>) returns (source: seq<nat>)
    requires Distinct(Names(lines)) && Schedule(Names(lines), edges) == Some(order) && Placed(lines, order, out)
    ensures |out| == |lines| && |source| == |lines| && Distinct(source)
    ensures forall i | 0 <= i < |lines| :: source[i] < |lines| && Shows(lines[source[i]], out[i])
    ensures forall i | 0 <= i < |lines| ::
      if lines[i].Restored() then lines[source[i]].Restored() else source[i] == i
    ensures forall i, j | 0 <= i < |lines| && 0 <= j < |lines| && lines[i].Restored() && lines[j].Restored()
      && (lines[source[j]].name, lines[source[i]].name) in edges :: i < j
  {
    var names := Names(lines);
    ScheduleOrders(names, edges);
    SameMembers(names, order);
    DistinctPermutation(names, order);
    source := seq(|lines|, i requires 0 <= i < |lines| => SourceOf(lines, order, i));
    forall i | 0 <= i < |lines|
      ensures source[i] < |lines| && Shows(lines[source[i]], out[i])
      ensures if lines[i].Restored() then lines[source[i]].Restored() else source[i] == i
    {
      SourceFacts(lines, edges, order, out, i);
    }
    forall i, j | 0 <= i < j < |lines|
      ensures source[i] != source[j]
    {
      SourcesDiffer(lines, edges, order, out, i, j);
    }
    forall i, j | 0 <= i < |lines| && 0 <= j < |lines| && lines[i].Restored() && lines[j].Restored()
      && (lines[source[j]].name, lines[source[i]].name) in edges
      ensures i < j
    {
      ParentBefore(lines, edges, order, out, i, j);
    }
  }

  /** When the archive already lists parents first, no line moves. */
  lemma {:induction false} OrderedArchiveStays(lines: seq<Line>, edges: Edges, order: seq<string>, out: seq<string>)
    requires Distinct(Names(lines)) && Schedule(Names(lines), edges) == Some(order) && Placed(lines, order, out)
    requires SuccessorsFirst(Within(edges, Names(lines)), Names(lines))
    ensures |out| == |lines| && forall i | 0 <= i < |lines| :: Shows(lines[i], out[i])
  {
    OrderedStays(Names(lines), edges);
    PositionsExact(lines);
    forall i | 0 <= i < |lines| && lines[i].Restored()
      ensures out[i] == Kept(lines[i])
    {
      var k := IndexOf(Positions(lines), i);
      assert lines[Positions(lines)[k]].name == order[k];
    }
  }
}
