/** The prophecy button (お告げ決定): one role name drawn from the current
    role table, never a werewolf and never the seer.  The draw of
    `random.choice` is the index `pick` into the candidate list. */
module Prophecy {
  import Seqs
  import Presets

  /** A role the prophecy may name: its name does not start with 人狼 and is
      not 占い. */
  predicate IsCandidate(role: string)
  {
    !Presets.IsWerewolf(role) && role != Presets.Seer
  }

  /** The roles of the table the prophecy may name, in table order: a role
      is listed exactly when it is in the table and is neither a werewolf
      nor the seer. */
  function Candidates(roles: seq<string>): (r: seq<string>)
    ensures forall x :: x in r <==> x in roles && IsCandidate(x)
  {
    var r := Seqs.Filter(roles, IsCandidate);
    assert forall x :: x in r <==> x in roles && IsCandidate(x) by {
      forall x
        ensures x in r <==> x in roles && IsCandidate(x)
      {
        Seqs.FilterMembers(roles, IsCandidate, x);
      }
    }
    r
  }

  /** The handler runs only when `roles` is non-empty, so an empty table
      keeps the previous prophecy; with no candidate the prophecy becomes
      `""`; otherwise it is a role of the table that is neither a werewolf
      nor the seer. */
  function DrawProphecy(prev: string, roles: seq<string>, pick: nat): (r: string)
    requires roles != [] && Candidates(roles) != [] ==> pick < |Candidates(roles)|
    ensures roles == [] ==> r == prev
    ensures roles != [] && Candidates(roles) == [] ==> r == ""
    ensures roles != [] && Candidates(roles) != [] ==>
      r in roles && !Presets.IsWerewolf(r) && r != Presets.Seer
  {
    if roles == [] then prev
    else
      var choices := Candidates(roles);
      if choices == [] then ""
      else
        Seqs.FilterMembers(roles, IsCandidate, choices[pick]);
        choices[pick]
  }

  /** Every role that is neither a werewolf nor the seer can be drawn: for
      each such role some pick yields it. */
  lemma DrawCoversCandidates(prev: string, roles: seq<string>, role: string)
    requires role in roles && IsCandidate(role)
    ensures exists pick: nat :: pick < |Candidates(roles)| && DrawProphecy(prev, roles, pick) == role
  {
    Seqs.FilterMembers(roles, IsCandidate, role);
    var pick :| 0 <= pick < |Candidates(roles)| && Candidates(roles)[pick] == role;
    assert DrawProphecy(prev, roles, pick) == role;
  }

  /** The prophecy is empty exactly when the table has no candidate, as long
      as no role is itself named `""`. */
  lemma EmptyProphecyMeansNoCandidate(prev: string, roles: seq<string>, pick: nat)
    requires roles != [] && Candidates(roles) != [] ==> pick < |Candidates(roles)|
    requires roles != [] && "" !in roles
    ensures DrawProphecy(prev, roles, pick) == "" <==> forall i :: 0 <= i < |roles| ==> !IsCandidate(roles[i])
  {
    if forall i :: 0 <= i < |roles| ==> !IsCandidate(roles[i]) {
      Seqs.NoneKept(roles, IsCandidate);
    } else {
      var i :| 0 <= i < |roles| && IsCandidate(roles[i]);
      Seqs.FilterMembers(roles, IsCandidate, roles[i]);
    }
  }

  /** Every preset has the medium (霊媒) among its candidates, so the
      prophecy drawn from a preset is never empty. */
  lemma PresetHasCandidates(n: int)
    requires 9 <= n <= 11
    ensures Presets.Medium in Candidates(Presets.RolePreset(n))
  {
    MediumInPreset(n);
    assert IsCandidate(Presets.Medium);
    Seqs.FilterMembers(Presets.RolePreset(n), IsCandidate, Presets.Medium);
  }

  lemma MediumInPreset(n: int)
    requires 9 <= n <= 11
    ensures Presets.Medium in Presets.RolePreset(n)
  {
    Presets.PresetComposition(n);
    Presets.OnceMember(Presets.RolePreset(n), Presets.IsMedium, Presets.Medium);
  }
}
