/** The fixed role tables chosen by participant count (`set_role_table`). */
module Presets {
  import Seqs
  import Text

  const Werewolf: string := "人狼"
  const Seer: string := "占い"
  const Medium: string := "霊媒"
  const Knight: string := "騎士"
  const DualGun: string := "二丁拳銃"

  /** A werewolf is any role whose name starts with 人狼 (人狼A, 人狼B, ...):
      its first two characters are 人 and 狼 (`WerewolfStartsWith`). */
  predicate IsWerewolf(role: string)
  {
    |role| >= 2 && role[0] == '人' && role[1] == '狼'
  }

  predicate IsSeer(role: string) { role == Seer }
  predicate IsMedium(role: string) { role == Medium }
  predicate IsKnight(role: string) { role == Knight }
  predicate IsDualGun(role: string) { role == DualGun }

  /** The werewolf roles of `roles`, in order. */
  function Werewolves(roles: seq<string>): seq<string>
  {
    Seqs.Filter(roles, IsWerewolf)
  }

  /** The werewolf test is a prefix test for 人狼. */
  lemma WerewolfStartsWith(role: string)
    ensures IsWerewolf(role) <==> Text.StartsWith(role, Werewolf)
  {
    if IsWerewolf(role) {
      assert role[..2] == Werewolf;
    }
  }

  /** The three tables of `set_role_table`. */
  const NineRoles: seq<string> :=
    ["人狼A", "人狼B", "狂人", "占い", "霊媒", "騎士", "村人A", "村人B", "村人C"]
  const TenRoles: seq<string> :=
    ["人狼A", "人狼B", "狂人", "占い", "霊媒", "騎士", "村人A", "村人B", "村人C", "村人D"]
  const ElevenRoles: seq<string> :=
    ["人狼A", "人狼B", "人狼C", "狂人", "占い", "霊媒", "二丁拳銃", "村人A", "村人B", "村人C", "村人D"]

  /** The ordered role list for 9, 10 or 11
      participants, and the empty list for any other count. */
  function RolePreset(n: int): (r: seq<string>)
    ensures n == 9 || n == 10 || n == 11 ==> |r| == n
    ensures n != 9 && n != 10 && n != 11 ==> r == []
  {
    if n == 9 then NineRoles
    else if n == 10 then TenRoles
    else if n == 11 then ElevenRoles
    else []
  }

  /** Exactly one role of `roles` satisfies `p`. */
  predicate Once(roles: seq<string>, p: string -> bool)
  {
    |Seqs.Filter(roles, p)| == 1
  }

  /** No role of `roles` satisfies `p`. */
  predicate Never(roles: seq<string>, p: string -> bool)
  {
    Seqs.Filter(roles, p) == []
  }

  /** The werewolves of the nine-player table are its first 2 roles. */
  lemma NineWerewolves()
    ensures Werewolves(NineRoles) == NineRoles[..2]
  {
    var s := NineRoles;
    forall i | 0 <= i < 2 ensures IsWerewolf(s[i]) {
      assert i == 0 || i == 1;
    }
    forall i | 2 <= i < |s| ensures !IsWerewolf(s[i]) {
      assert i == 2 || i == 3 || i == 4 || i == 5 || i == 6 || i == 7 || i == 8;
    }
    Seqs.FilterPrefix(s, IsWerewolf, 2);
  }

  lemma NineSeer()
    ensures Once(NineRoles, IsSeer)
  {
    var s := NineRoles;
    forall i | 0 <= i < |s| ensures IsSeer(s[i]) <==> i == 3 {
      assert i == 0 || i == 1 || i == 2 || i == 3 || i == 4 || i == 5 || i == 6 || i == 7 || i == 8;
    }
    Seqs.FilterOnly(s, IsSeer, 3);
  }

  lemma NineMedium()
    ensures Once(NineRoles, IsMedium)
  {
    var s := NineRoles;
    forall i | 0 <= i < |s| ensures IsMedium(s[i]) <==> i == 4 {
      assert i == 0 || i == 1 || i == 2 || i == 3 || i == 4 || i == 5 || i == 6 || i == 7 || i == 8;
    }
    Seqs.FilterOnly(s, IsMedium, 4);
  }

  lemma NineKnight()
    ensures Once(NineRoles, IsKnight)
  {
    var s := NineRoles;
    forall i | 0 <= i < |s| ensures IsKnight(s[i]) <==> i == 5 {
      assert i == 0 || i == 1 || i == 2 || i == 3 || i == 4 || i == 5 || i == 6 || i == 7 || i == 8;
    }
    Seqs.FilterOnly(s, IsKnight, 5);
  }

  lemma NineDualGun()
    ensures Never(NineRoles, IsDualGun)
  {
    var s := NineRoles;
    forall i | 0 <= i < |s| ensures !IsDualGun(s[i]) {
      assert i == 0 || i == 1 || i == 2 || i == 3 || i == 4 || i == 5 || i == 6 || i == 7 || i == 8;
    }
    Seqs.NoneKept(s, IsDualGun);
  }

  /** The werewolves of the ten-player table are its first 2 roles. */
  lemma TenWerewolves()
    ensures Werewolves(TenRoles) == TenRoles[..2]
  {
    var s := TenRoles;
    forall i | 0 <= i < 2 ensures IsWerewolf(s[i]) {
      assert i == 0 || i == 1;
    }
    forall i | 2 <= i < |s| ensures !IsWerewolf(s[i]) {
      assert i == 2 || i == 3 || i == 4 || i == 5 || i == 6 || i == 7 || i == 8 || i == 9;
    }
    Seqs.FilterPrefix(s, IsWerewolf, 2);
  }

  lemma TenSeer()
    ensures Once(TenRoles, IsSeer)
  {
    var s := TenRoles;
    forall i | 0 <= i < |s| ensures IsSeer(s[i]) <==> i == 3 {
      assert i == 0 || i == 1 || i == 2 || i == 3 || i == 4 || i == 5 || i == 6 || i == 7 || i == 8 || i == 9;
    }
    Seqs.FilterOnly(s, IsSeer, 3);
  }

  lemma TenMedium()
    ensures Once(TenRoles, IsMedium)
  {
    var s := TenRoles;
    forall i | 0 <= i < |s| ensures IsMedium(s[i]) <==> i == 4 {
      assert i == 0 || i == 1 || i == 2 || i == 3 || i == 4 || i == 5 || i == 6 || i == 7 || i == 8 || i == 9;
    }
    Seqs.FilterOnly(s, IsMedium, 4);
  }

  lemma TenKnight()
    ensures Once(TenRoles, IsKnight)
  {
    var s := TenRoles;
    forall i | 0 <= i < |s| ensures IsKnight(s[i]) <==> i == 5 {
      assert i == 0 || i == 1 || i == 2 || i == 3 || i == 4 || i == 5 || i == 6 || i == 7 || i == 8 || i == 9;
    }
    Seqs.FilterOnly(s, IsKnight, 5);
  }

  lemma TenDualGun()
    ensures Never(TenRoles, IsDualGun)
  {
    var s := TenRoles;
    forall i | 0 <= i < |s| ensures !IsDualGun(s[i]) {
      assert i == 0 || i == 1 || i == 2 || i == 3 || i == 4 || i == 5 || i == 6 || i == 7 || i == 8 || i == 9;
    }
    Seqs.NoneKept(s, IsDualGun);
  }

  /** The werewolves of the eleven-player table are its first 3 roles. */
  lemma ElevenWerewolves()
    ensures Werewolves(ElevenRoles) == ElevenRoles[..3]
  {
    var s := ElevenRoles;
    forall i | 0 <= i < 3 ensures IsWerewolf(s[i]) {
      assert i == 0 || i == 1 || i == 2;
    }
    forall i | 3 <= i < |s| ensures !IsWerewolf(s[i]) {
      assert i == 3 || i == 4 || i == 5 || i == 6 || i == 7 || i == 8 || i == 9 || i == 10;
    }
    Seqs.FilterPrefix(s, IsWerewolf, 3);
  }

  lemma ElevenSeer()
    ensures Once(ElevenRoles, IsSeer)
  {
    var s := ElevenRoles;
    forall i | 0 <= i < |s| ensures IsSeer(s[i]) <==> i == 4 {
      assert i == 0 || i == 1 || i == 2 || i == 3 || i == 4 || i == 5 || i == 6 || i == 7 || i == 8 || i == 9 || i == 10;
    }
    Seqs.FilterOnly(s, IsSeer, 4);
  }

  lemma ElevenMedium()
    ensures Once(ElevenRoles, IsMedium)
  {
    var s := ElevenRoles;
    forall i | 0 <= i < |s| ensures IsMedium(s[i]) <==> i == 5 {
      assert i == 0 || i == 1 || i == 2 || i == 3 || i == 4 || i == 5 || i == 6 || i == 7 || i == 8 || i == 9 || i == 10;
    }
    Seqs.FilterOnly(s, IsMedium, 5);
  }

  lemma ElevenKnight()
    ensures Never(ElevenRoles, IsKnight)
  {
    var s := ElevenRoles;
    forall i | 0 <= i < |s| ensures !IsKnight(s[i]) {
      assert i == 0 || i == 1 || i == 2 || i == 3 || i == 4 || i == 5 || i == 6 || i == 7 || i == 8 || i == 9 || i == 10;
    }
    Seqs.NoneKept(s, IsKnight);
  }

  lemma ElevenDualGun()
    ensures Once(ElevenRoles, IsDualGun)
  {
    var s := ElevenRoles;
    forall i | 0 <= i < |s| ensures IsDualGun(s[i]) <==> i == 6 {
      assert i == 0 || i == 1 || i == 2 || i == 3 || i == 4 || i == 5 || i == 6 || i == 7 || i == 8 || i == 9 || i == 10;
    }
    Seqs.FilterOnly(s, IsDualGun, 6);
  }


  lemma OnceMember(roles: seq<string>, p: string -> bool, name: string)
    requires forall x :: p(x) <==> x == name
    ensures Once(roles, p) ==> name in roles
    ensures Never(roles, p) ==> name !in roles
  {
    Seqs.FilterMembers(roles, p, name);
    var f := Seqs.Filter(roles, p);
    if Once(roles, p) {
      Seqs.FilterMembers(roles, p, f[0]);
    }
  }

  /** What a preset holds: its first `wolves` roles and no others are
      werewolves, exactly one seer and one medium, and a knight or the
      dual-gun role as the flags say. */
  predicate Composition(roles: seq<string>, wolves: nat, knight: bool, dualGun: bool)
  {
    && wolves <= |roles|
    && Werewolves(roles) == roles[..wolves]
    && Once(roles, IsSeer) && Once(roles, IsMedium)
    && (Knight in roles <==> knight)
    && (DualGun in roles <==> dualGun)
  }

  lemma NineComposition()
    ensures Composition(NineRoles, 2, true, false)
  {
    NineWerewolves();
    NineSeer();
    NineMedium();
    NineKnight();
    NineDualGun();
    OnceMember(NineRoles, IsKnight, Knight);
    OnceMember(NineRoles, IsDualGun, DualGun);
  }

  lemma TenComposition()
    ensures Composition(TenRoles, 2, true, false)
  {
    TenWerewolves();
    TenSeer();
    TenMedium();
    TenKnight();
    TenDualGun();
    OnceMember(TenRoles, IsKnight, Knight);
    OnceMember(TenRoles, IsDualGun, DualGun);
  }

  lemma ElevenComposition()
    ensures Composition(ElevenRoles, 3, false, true)
  {
    ElevenWerewolves();
    ElevenSeer();
    ElevenMedium();
    ElevenKnight();
    ElevenDualGun();
    OnceMember(ElevenRoles, IsKnight, Knight);
    OnceMember(ElevenRoles, IsDualGun, DualGun);
  }

  /** Every preset has two werewolves (three at 11) at its head, exactly one
      seer and one medium, a knight only at 9 and 10 and the dual-gun role
      only at 11. */
  lemma PresetComposition(n: int)
    requires 9 <= n <= 11
    ensures Composition(RolePreset(n), if n == 11 then 3 else 2, n != 11, n == 11)
  {
    if n == 9 {
      NineComposition();
    } else if n == 10 {
      TenComposition();
    } else {
      ElevenComposition();
    }
  }
}
