/** The buttons used one after another, as a game master does: preset
    roles, speaking order, role assignment and the copied text. */
module Game {
  import Seqs
  import Text
  import Presets
  import Table
  import opened Options
  import Export

  /** A speaking-order label holds only digits, so neither a `.` nor a line
      break. */
  lemma LabelIsDigits(k: nat)
    ensures '.' !in Table.Label(k) && '\n' !in Table.Label(k)
  {
    var l := Table.Label(k);
    assert forall i :: 0 <= i < |l| ==> '0' <= l[i] <= '9';
  }

  /** Copying a fresh speaking order gives one line per participant, and
      line `i` reads back as label `i + 1` with the name drawn into that
      place. */
  lemma SpeakingOrderCopyReadsBack(players: seq<string>, numPlayers: nat, drawsA: seq<int>)
    requires |drawsA| == |Table.Selected(players, numPlayers)|
    requires Table.InRange(drawsA, 1, 1000)
    requires forall i :: 0 <= i < |players| ==> '\n' !in players[i]
    requires Table.Selected(players, numPlayers) != []
    ensures var t := Table.AssignSpeakingOrder(players, numPlayers, drawsA);
      var lines := Text.Split(Export.SpeakingOrderText(t), '\n');
      |lines| == |t| &&
      forall i :: 0 <= i < |t| ==>
        Export.ParseSpeakingLine(lines[i]) == Some((Table.Label(i + 1), t[i].name))
  {
    var t := Table.AssignSpeakingOrder(players, numPlayers, drawsA);
    var sel := Table.Selected(players, numPlayers);
    forall i | 0 <= i < |t| ensures '\n' !in t[i].name && '\n' !in t[i].order && '.' !in t[i].order {
      assert t[i].name in multiset(Seqs.Map(t, Table.RowName)) by {
        assert Seqs.Map(t, Table.RowName)[i] == t[i].name;
      }
      var j :| 0 <= j < |sel| && sel[j] == t[i].name;
      LabelIsDigits(i + 1);
    }
    Export.SpeakingOrderTextLines(t);
  }

  /** With the preset for the participant count and a speaking order for the
      same count, role assignment completes and hands out every preset role
      exactly once. */
  lemma MatchingPresetUsesEveryRole(players: seq<string>, n: nat, drawsA: seq<int>, drawsB: seq<int>)
    requires |players| == 13 && 9 <= n <= 11
    requires |drawsA| == n && Table.InRange(drawsA, 1, 1000)
    requires |drawsB| == n && Table.InRange(drawsB, 1, 2000)
    ensures var t := Table.AssignSpeakingOrder(players, n, drawsA);
      var o := Table.AssignRoles(t, Presets.RolePreset(n), drawsB);
      o.Assigned? &&
      multiset(Seqs.Map(o.rows, Table.RowRole)) == multiset(Seqs.Map(Presets.RolePreset(n), Table.SomeRole))
  {
    var t := Table.AssignSpeakingOrder(players, n, drawsA);
    Table.AssignRolesUsesEveryRole(t, Presets.RolePreset(n), drawsB);
  }

  /** The role table is fixed for nine participants, the count is then
      raised to ten and the speaking order drawn: the role button stops with
      an IndexError, and the tenth row is left without a role.  The checked
      variant reports the mismatch instead. */
  lemma StaleRoleTableCrashes(players: seq<string>, drawsA: seq<int>, drawsB: seq<int>)
    requires |players| == 13
    requires |drawsA| == 10 && Table.InRange(drawsA, 1, 1000)
    requires |drawsB| == 10 && Table.InRange(drawsB, 1, 2000)
    ensures var t := Table.AssignSpeakingOrder(players, 10, drawsA);
      var o := Table.AssignRoles(t, Presets.RolePreset(9), drawsB);
      o.IndexError? && o.rows[9].role == None
    ensures var t := Table.AssignSpeakingOrder(players, 10, drawsA);
      Table.AssignRolesChecked(t, Presets.RolePreset(9), drawsB).CountMismatch?
  {
    var t := Table.AssignSpeakingOrder(players, 10, drawsA);
    Table.FewerRolesLeaveRowsUnroled(t, Presets.RolePreset(9), drawsB);
  }
}
