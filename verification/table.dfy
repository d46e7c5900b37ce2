/** The assignment table: one row per participant, produced by the
    speaking-order button (発言順割り当て) and re-sorted by the role button
    (役職割り当て).  The random draws of `random.randint` are parameters. */
module Table {
  import Seqs
  import StableSort
  import Text
  import opened Options

  /** One table row: the script's dict with keys `order`, `name`, `rand_a`,
      `rand_b` and `role`. */
  datatype Row = Row(order: string, name: string, randA: int, randB: Option<int>, role: Option<string>)

  /** The speaking-order label of 1-based position `k`: its decimal form,
      padded to two digits. */
  function Label(k: nat): string
  {
    Text.Pad2(k)
  }

  predicate InRange(draws: seq<int>, lo: int, hi: int)
  {
    forall i :: 0 <= i < |draws| ==> lo <= draws[i] <= hi
  }

  /** The names of the first `numPlayers` slots, or all slots when there
      are fewer. */
  function Selected(players: seq<string>, numPlayers: nat): (s: seq<string>)
    ensures |s| == if numPlayers <= |players| then numPlayers else |players|
    ensures forall i :: 0 <= i < |s| ==> s[i] == players[i]
  {
    if numPlayers <= |players| then players[..numPlayers] else players
  }

  // ---------------------------------------------------------------------
  // Speaking order
  // ---------------------------------------------------------------------

  /** A participant's name with its draw A, the row before labelling. */
  type Entry = (int, string)

  function EntryDraw(e: Entry): int { e.0 }

  /** Each selected name paired with its draw A, in slot order. */
  function Entries(names: seq<string>, draws: seq<int>): (es: seq<Entry>)
    requires |names| == |draws|
    ensures |es| == |names|
    ensures forall i :: 0 <= i < |es| ==> es[i] == (draws[i], names[i])
  {
    seq(|names|, i requires 0 <= i < |names| => (draws[i], names[i]))
  }

  function RowEntry(r: Row): Entry { (r.randA, r.name) }

  function RowName(r: Row): string { r.name }

  /** Numbers the sorted entries `"01"`, `"02"`, ... with no draw B and no
      role yet. */
  function Labelled(es: seq<Entry>): (t: seq<Row>)
    ensures |t| == |es|
    ensures forall i :: 0 <= i < |t| ==> t[i] == Row(Label(i + 1), es[i].1, es[i].0, None, None)
  {
    seq(|es|, i requires 0 <= i < |es| => Row(Label(i + 1), es[i].1, es[i].0, None, None))
  }

  /** The speaking-order button: draw A for each of the first `numPlayers`
      names, a stable sort on draw A, then labels by position.  The names
      come out permuted, each keeping its own draw, in non-decreasing draw
      order with ties in slot order; every row has its position's label and
      no draw B or role. */
  function AssignSpeakingOrder(players: seq<string>, numPlayers: nat, drawsA: seq<int>): (t: seq<Row>)
    requires |drawsA| == |Selected(players, numPlayers)|
    requires InRange(drawsA, 1, 1000)
    ensures |t| == |Selected(players, numPlayers)|
    ensures forall i :: 0 <= i < |t| ==> t[i].order == Label(i + 1)
    ensures forall i :: 0 <= i < |t| ==> t[i].randB == None && t[i].role == None
    ensures forall i :: 0 <= i < |t| ==> 1 <= t[i].randA <= 1000
    ensures forall i, j :: 0 <= i < j < |t| ==> t[i].randA <= t[j].randA
    ensures multiset(Seqs.Map(t, RowEntry)) == multiset(Entries(Selected(players, numPlayers), drawsA))
    ensures multiset(Seqs.Map(t, RowName)) == multiset(Selected(players, numPlayers))
    ensures StableSort.StableFor(Seqs.Map(t, RowEntry), Entries(Selected(players, numPlayers), drawsA), EntryDraw)
  {
    var names := Selected(players, numPlayers);
    var es := Entries(names, drawsA);
    var sorted := StableSort.Sort(es, EntryDraw);
    LabelledEntries(sorted);
    DrawsStayInRange(es, sorted, 1, 1000);
    EntriesNames(names, drawsA);
    Seqs.MultisetMap(sorted, es, EntryName);
    Labelled(sorted)
  }

  function EntryName(e: Entry): string { e.1 }

  lemma LabelledEntries(es: seq<Entry>)
    ensures Seqs.Map(Labelled(es), RowEntry) == es
    ensures Seqs.Map(Labelled(es), RowName) == Seqs.Map(es, EntryName)
  {
  }

  lemma EntriesNames(names: seq<string>, draws: seq<int>)
    requires |names| == |draws|
    ensures Seqs.Map(Entries(names, draws), EntryName) == names
  {
  }

  /** A permutation of entries whose draws lie in a range has its draws in
      that range. */
  lemma DrawsStayInRange(es: seq<Entry>, sorted: seq<Entry>, lo: int, hi: int)
    requires multiset(sorted) == multiset(es)
    requires forall i :: 0 <= i < |es| ==> lo <= es[i].0 <= hi
    ensures forall i :: 0 <= i < |sorted| ==> lo <= sorted[i].0 <= hi
  {
    forall i | 0 <= i < |sorted| ensures lo <= sorted[i].0 <= hi {
      assert sorted[i] in multiset(es);
    }
  }

  /** The labels of a speaking-order table are pairwise distinct: reading a
      label back gives its 1-based position. */
  lemma SpeakingOrderLabels(players: seq<string>, numPlayers: nat, drawsA: seq<int>)
    requires |drawsA| == |Selected(players, numPlayers)|
    requires InRange(drawsA, 1, 1000)
    ensures var t := AssignSpeakingOrder(players, numPlayers, drawsA);
      forall i :: 0 <= i < |t| ==> Text.ParseDecimal(t[i].order) == i + 1
    ensures var t := AssignSpeakingOrder(players, numPlayers, drawsA);
      forall i, j :: 0 <= i < j < |t| ==> t[i].order != t[j].order
  {
  }

  // ---------------------------------------------------------------------
  // Role assignment
  // ---------------------------------------------------------------------

  /** What the role button leaves behind.  `Skipped`: the role table or the
      assignment table was empty and nothing ran.  `Assigned`: every row got
      a role.  `IndexError`: a row's position ran past the end of `roles`; the
      table had already been re-sorted and partly filled in place, and that
      state stays in the session. */
  datatype RoleOutcome = Skipped | Assigned(rows: seq<Row>) | IndexError(rows: seq<Row>)

  /** The draw B a row carries (0 while it has none). */
  function DrawB(r: Row): int
  {
    match r.randB
    case Some(v) => v
    case None => 0
  }

  /** The row without its role: everything role assignment must not touch
      except the draw B it writes. */
  function Unroled(r: Row): Row
  {
    r.(role := None)
  }

  function RowRole(r: Row): Option<string> { r.role }

  function SomeRole(s: string): Option<string> { Some(s) }

  /** The row without its draw B. */
  function Undrawn(r: Row): Row
  {
    r.(randB := None)
  }

  function RowDrawB(r: Row): Option<int> { r.randB }

  function SomeDraw(d: int): Option<int> { Some(d) }

  /** Every row receives its own draw B, in table order: forgetting draw B
      the rows are unchanged, and the draws B read off in order are
      `draws`. */
  function Stamp(table: seq<Row>, draws: seq<int>): (s: seq<Row>)
    requires |draws| == |table|
    ensures Seqs.Map(s, Undrawn) == Seqs.Map(table, Undrawn)
    ensures Seqs.Map(s, RowDrawB) == Seqs.Map(draws, SomeDraw)
  {
    seq(|table|, i requires 0 <= i < |table| => table[i].(randB := Some(draws[i])))
  }

  /** The leading rows receive the roles in order, as far as the roles reach:
      apart from their roles the rows are unchanged, the roles of the first
      `min(|rows|, |roles|)` rows read off in order are the leading roles,
      and the rows past the last role are untouched. */
  function GiveRoles(rows: seq<Row>, roles: seq<string>): (r: seq<Row>)
    ensures Seqs.Map(r, Unroled) == Seqs.Map(rows, Unroled)
    ensures var k := if |roles| < |rows| then |roles| else |rows|;
      Seqs.Map(r[..k], RowRole) == Seqs.Map(roles[..k], SomeRole)
    ensures |roles| <= |rows| ==> r[|roles|..] == rows[|roles|..]
  {
    seq(|rows|, i requires 0 <= i < |rows| => if i < |roles| then rows[i].(role := Some(roles[i])) else rows[i])
  }

  /** `rows` is `table` re-drawn and re-sorted by draw B: the same rows
      (roles aside), each carrying its own draw B, in non-decreasing draw B
      order, with rows of equal draw B in their previous table order. */
  ghost predicate Reordered(rows: seq<Row>, table: seq<Row>, draws: seq<int>)
    requires |draws| == |table|
  {
    && |rows| == |table|
    && (forall i :: 0 <= i < |rows| ==> rows[i].randB.Some? && 1 <= rows[i].randB.value <= 2000)
    && StableSort.SortedBy(rows, DrawB)
    && multiset(Seqs.Map(rows, Unroled)) == multiset(Seqs.Map(Stamp(table, draws), Unroled))
    && StableSort.StableFor(Seqs.Map(rows, Unroled), Seqs.Map(Stamp(table, draws), Unroled), DrawB)
  }

  /** The role button.  Runs only when both `roles` and `table` are
      non-empty; then it stamps and stable-sorts the table by draw B and
      hands the role at each position to the row at that position.  With
      fewer roles than rows the hand-out stops with an IndexError, leaving
      the re-sorted, partly filled table behind; with more roles than rows
      the extra roles go unused. */
  function AssignRoles(table: seq<Row>, roles: seq<string>, drawsB: seq<int>): (o: RoleOutcome)
    requires |drawsB| == |table|
    requires InRange(drawsB, 1, 2000)
    ensures o.Skipped? <==> roles == [] || table == []
    ensures o.Assigned? <==> roles != [] && table != [] && |table| <= |roles|
    ensures o.IndexError? <==> roles != [] && |roles| < |table|
    ensures !o.Skipped? ==> Reordered(o.rows, table, drawsB)
    ensures !o.Skipped? ==> forall i :: 0 <= i < |o.rows| && i < |roles| ==> o.rows[i].role == Some(roles[i])
    ensures o.IndexError? ==> forall i :: |roles| <= i < |o.rows| ==> o.rows[i] in Stamp(table, drawsB)
  {
    if roles == [] || table == [] then Skipped
    else if |table| <= |roles| then Assigned(Deal(table, roles, drawsB))
    else IndexError(Deal(table, roles, drawsB))
  }

  /** Stamp, stable sort by draw B, and hand the role at each position to
      the row at that position as far as `roles` reaches; the positions past the roles hold
      stamped rows untouched. */
  function Deal(table: seq<Row>, roles: seq<string>, drawsB: seq<int>): (rows: seq<Row>)
    requires |drawsB| == |table|
    requires InRange(drawsB, 1, 2000)
    ensures Reordered(rows, table, drawsB)
    ensures forall i :: 0 <= i < |rows| && i < |roles| ==> rows[i].role == Some(roles[i])
    ensures forall i :: |roles| <= i < |rows| ==> rows[i] in Stamp(table, drawsB)
  {
    var sorted := StableSort.Sort(Stamp(table, drawsB), DrawB);
    RedrawnRows(table, drawsB, sorted);
    GivenRolesReordered(table, drawsB, sorted, roles);
    SortedRowsStamped(table, drawsB, sorted);
    GiveRoles(sorted, roles)
  }

  lemma SortedRowsStamped(table: seq<Row>, draws: seq<int>, sorted: seq<Row>)
    requires |draws| == |table|
    requires multiset(sorted) == multiset(Stamp(table, draws))
    ensures forall i :: 0 <= i < |sorted| ==> sorted[i] in Stamp(table, draws)
    ensures InRange(draws, 1, 2000) ==>
      forall i :: 0 <= i < |sorted| ==> sorted[i].randB.Some? && 1 <= sorted[i].randB.value <= 2000
  {
    forall i | 0 <= i < |sorted| ensures sorted[i] in Stamp(table, draws) {
      assert sorted[i] in multiset(sorted);
    }
  }

  /** The stable sort of the stamped table re-draws and re-orders it. */
  lemma RedrawnRows(table: seq<Row>, draws: seq<int>, sorted: seq<Row>)
    requires |draws| == |table|
    requires InRange(draws, 1, 2000)
    requires sorted == StableSort.Sort(Stamp(table, draws), DrawB)
    ensures Reordered(sorted, table, draws)
  {
    var stamped := Stamp(table, draws);
    SortedRowsStamped(table, draws, sorted);
    Seqs.MultisetMap(sorted, stamped, Unroled);
    UnroledStable(sorted, stamped);
  }

  /** Forgetting roles commutes with picking out a draw B's run. */
  lemma UnroledStable(sorted: seq<Row>, stamped: seq<Row>)
    requires StableSort.StableFor(sorted, stamped, DrawB)
    ensures StableSort.StableFor(Seqs.Map(sorted, Unroled), Seqs.Map(stamped, Unroled), DrawB)
  {
    forall k
      ensures StableSort.WithKey(Seqs.Map(sorted, Unroled), DrawB, k)
        == StableSort.WithKey(Seqs.Map(stamped, Unroled), DrawB, k)
    {
      StableSort.WithKeyMap(sorted, Unroled, DrawB, DrawB, k);
      StableSort.WithKeyMap(stamped, Unroled, DrawB, DrawB, k);
    }
  }

  /** Handing out roles changes roles only, so the re-ordering facts survive. */
  lemma GivenRolesReordered(table: seq<Row>, draws: seq<int>, sorted: seq<Row>, roles: seq<string>)
    requires |draws| == |table|
    requires Reordered(sorted, table, draws)
    ensures Reordered(GiveRoles(sorted, roles), table, draws)
  {
    var rows := GiveRoles(sorted, roles);
    assert Seqs.Map(rows, Unroled) == Seqs.Map(sorted, Unroled);
    assert forall i :: 0 <= i < |rows| ==> DrawB(rows[i]) == DrawB(sorted[i]);
  }

  /** What identifies a participant's row across both sorts. */
  function Identity(r: Row): (string, string, int)
  {
    (r.order, r.name, r.randA)
  }

  /** With as many roles as rows, role assignment runs to completion and the
      roles handed out, read in table order, are `roles` itself, so every
      role is used exactly once. */
  lemma AssignRolesUsesEveryRole(table: seq<Row>, roles: seq<string>, drawsB: seq<int>)
    requires |drawsB| == |table|
    requires InRange(drawsB, 1, 2000)
    requires |roles| == |table| > 0
    ensures AssignRoles(table, roles, drawsB).Assigned?
    ensures Seqs.Map(AssignRoles(table, roles, drawsB).rows, RowRole) == Seqs.Map(roles, SomeRole)
    ensures multiset(Seqs.Map(AssignRoles(table, roles, drawsB).rows, RowRole)) == multiset(Seqs.Map(roles, SomeRole))
  {
  }

  /** Role assignment permutes the rows without touching any row's label,
      name or draw A: the (label, name, draw A) triples are the same before
      and after, counted with multiplicity. */
  lemma AssignRolesKeepsIdentities(table: seq<Row>, roles: seq<string>, drawsB: seq<int>)
    requires |drawsB| == |table|
    requires InRange(drawsB, 1, 2000)
    ensures var o := AssignRoles(table, roles, drawsB);
      !o.Skipped? ==> multiset(Seqs.Map(o.rows, Identity)) == multiset(Seqs.Map(table, Identity))
  {
    var o := AssignRoles(table, roles, drawsB);
    if !o.Skipped? {
      var stamped := Stamp(table, drawsB);
      var a, b := Seqs.Map(o.rows, Unroled), Seqs.Map(stamped, Unroled);
      Seqs.MultisetMap(a, b, Identity);
      assert Seqs.Map(a, Identity) == Seqs.Map(o.rows, Identity);
      assert Seqs.Map(b, Identity) == Seqs.Map(table, Identity);
    }
  }

  /** Each row after role assignment carries the label, name and draw A of
      some row before it. */
  lemma AssignedRowsComeFromTable(table: seq<Row>, roles: seq<string>, drawsB: seq<int>, i: nat)
    requires |drawsB| == |table|
    requires InRange(drawsB, 1, 2000)
    requires !AssignRoles(table, roles, drawsB).Skipped?
    requires i < |AssignRoles(table, roles, drawsB).rows|
    ensures exists k :: 0 <= k < |table| && Identity(AssignRoles(table, roles, drawsB).rows[i]) == Identity(table[k])
  {
    var o := AssignRoles(table, roles, drawsB);
    AssignRolesKeepsIdentities(table, roles, drawsB);
    var id := Identity(o.rows[i]);
    assert id == Seqs.Map(o.rows, Identity)[i];
    assert id in multiset(Seqs.Map(table, Identity));
    var k :| 0 <= k < |table| && Seqs.Map(table, Identity)[k] == id;
  }

  /** After role assignment every row still pairs its speaking-order label
      with the name that label was given: the label-to-name mapping of the
      speaking order survives, although the rows are now listed in draw B
      order. */
  lemma SpeakingOrderSurvivesRoles(players: seq<string>, numPlayers: nat, drawsA: seq<int>,
                                   roles: seq<string>, drawsB: seq<int>, i: nat)
    requires |drawsA| == |Selected(players, numPlayers)|
    requires InRange(drawsA, 1, 1000)
    requires |drawsB| == |Selected(players, numPlayers)|
    requires InRange(drawsB, 1, 2000)
    requires var t := AssignSpeakingOrder(players, numPlayers, drawsA);
      var o := AssignRoles(t, roles, drawsB);
      !o.Skipped? && i < |o.rows|
    ensures var t := AssignSpeakingOrder(players, numPlayers, drawsA);
      var o := AssignRoles(t, roles, drawsB);
      exists k :: 0 <= k < |t| && o.rows[i].order == Label(k + 1) && o.rows[i].name == t[k].name
  {
    var t := AssignSpeakingOrder(players, numPlayers, drawsA);
    AssignedRowsComeFromTable(t, roles, drawsB, i);
  }

  /** The role button lists the rows in draw B order, not in the order they
      had: of two rows whose draws B come out decreasing, the second is
      listed first and receives the first role. */
  lemma RoleTableNotInLabelOrder(x: Row, y: Row, roles: seq<string>, dx: int, dy: int)
    requires 1 <= dy < dx <= 2000
    requires |roles| == 2
    ensures var o := AssignRoles([x, y], roles, [dx, dy]);
      && o.Assigned?
      && o.rows[0] == y.(randB := Some(dy), role := Some(roles[0]))
      && o.rows[1] == x.(randB := Some(dx), role := Some(roles[1]))
  {
    DealPair(x, y, roles, dx, dy);
  }

  lemma DealPair(x: Row, y: Row, roles: seq<string>, dx: int, dy: int)
    requires 1 <= dy < dx <= 2000
    ensures Deal([x, y], roles, [dx, dy]) == GiveRoles([y.(randB := Some(dy)), x.(randB := Some(dx))], roles)
  {
    StampedPairSwaps(x, y, dx, dy);
  }

  lemma StampedPairSwaps(x: Row, y: Row, dx: int, dy: int)
    requires dy < dx
    ensures StableSort.Sort(Stamp([x, y], [dx, dy]), DrawB) == [y.(randB := Some(dy)), x.(randB := Some(dx))]
  {
    var stamped := Stamp([x, y], [dx, dy]);
    assert stamped == [x.(randB := Some(dx)), y.(randB := Some(dy))];
    StableSort.SortSwapsPair(stamped[0], stamped[1], DrawB);
  }

  /** Role assignment with the count check the button lacks: nothing runs
      unless there is exactly one role per row.  The outcome of a completed
      run is the one of `AssignRoles`. */
  datatype CheckedOutcome = NotRun | CountMismatch | Distributed(rows: seq<Row>)

  function AssignRolesChecked(table: seq<Row>, roles: seq<string>, drawsB: seq<int>): (o: CheckedOutcome)
    requires |drawsB| == |table|
    requires InRange(drawsB, 1, 2000)
    ensures o.NotRun? <==> roles == [] || table == []
    ensures o.CountMismatch? <==> roles != [] && table != [] && |roles| != |table|
    ensures o.Distributed? ==> Reordered(o.rows, table, drawsB)
    ensures o.Distributed? ==> Seqs.Map(o.rows, RowRole) == Seqs.Map(roles, SomeRole)
  {
    if roles == [] || table == [] then NotRun
    else if |roles| != |table| then CountMismatch
    else
      AssignRolesUsesEveryRole(table, roles, drawsB);
      Distributed(AssignRoles(table, roles, drawsB).rows)
  }

  /** Under the check every role is handed out exactly once. */
  lemma CheckedUsesEveryRole(table: seq<Row>, roles: seq<string>, drawsB: seq<int>)
    requires |drawsB| == |table|
    requires InRange(drawsB, 1, 2000)
    requires AssignRolesChecked(table, roles, drawsB).Distributed?
    ensures multiset(Seqs.Map(AssignRolesChecked(table, roles, drawsB).rows, RowRole)) == multiset(Seqs.Map(roles, SomeRole))
    ensures forall i :: 0 <= i < |table| ==> AssignRolesChecked(table, roles, drawsB).rows[i].role.Some?
  {
    var rows := AssignRolesChecked(table, roles, drawsB).rows;
    assert forall i :: 0 <= i < |table| ==> Seqs.Map(rows, RowRole)[i] == Some(roles[i]);
  }

  /** The button as written crashes when there are fewer roles than rows:
      the rows past the last role keep no role. */
  lemma FewerRolesLeaveRowsUnroled(table: seq<Row>, roles: seq<string>, drawsB: seq<int>)
    requires |drawsB| == |table|
    requires InRange(drawsB, 1, 2000)
    requires forall i :: 0 <= i < |table| ==> table[i].role == None
    requires roles != [] && |roles| < |table|
    ensures AssignRoles(table, roles, drawsB).IndexError?
    ensures AssignRoles(table, roles, drawsB).rows[|table| - 1].role == None
    ensures AssignRolesChecked(table, roles, drawsB).CountMismatch?
  {
    var o := AssignRoles(table, roles, drawsB);
    var last := o.rows[|table| - 1];
    assert last in Stamp(table, drawsB);
  }

  /** The button as written silently drops roles when there are more roles
      than rows: only the leading `|table|` roles are handed out, whatever
      the draws. */
  lemma ExtraRolesDropped(table: seq<Row>, roles: seq<string>, drawsB: seq<int>)
    requires |drawsB| == |table|
    requires InRange(drawsB, 1, 2000)
    requires table != [] && |table| < |roles|
    ensures AssignRoles(table, roles, drawsB).Assigned?
    ensures Seqs.Map(AssignRoles(table, roles, drawsB).rows, RowRole) == Seqs.Map(roles[..|table|], SomeRole)
    ensures AssignRolesChecked(table, roles, drawsB).CountMismatch?
  {
  }
}
