/** The two copy buttons: the table rendered as text, one line per row in
    the table's current order, lines joined with a newline.  Handing the
    text to the clipboard is left out; only the text is modelled. */
module Export {
  import Seqs
  import Text
  import Table
  import opened Options

  /** A line of the speaking-order text: the label, a dot, the name. */
  function SpeakingLine(row: Table.Row): string
  {
    row.order + "." + row.name
  }

  /** The role as the role text shows it: the role's own name, and the word
      `None` for a row that has no role yet. */
  function RoleLabel(role: Option<string>): (r: string)
    ensures role.None? ==> r == "None"
    ensures role.Some? ==> r == role.value
  {
    match role
    case None => "None"
    case Some(s) => s
  }

  /** A line of the role text: the label, a dot, the name, a hyphen and the
      role as `RoleLabel` shows it. */
  function RoleLine(row: Table.Row): string
  {
    row.order + "." + row.name + "-" + RoleLabel(row.role)
  }

  /** The text of the speaking-order copy button. */
  function SpeakingOrderText(table: seq<Table.Row>): (text: string)
    ensures table == [] ==> text == ""
  {
    Text.Join(Seqs.Map(table, SpeakingLine), '\n')
  }

  /** The text of the role copy button. */
  function RoleListText(table: seq<Table.Row>): (text: string)
    ensures table == [] ==> text == ""
  {
    Text.Join(Seqs.Map(table, RoleLine), '\n')
  }

  // ---------------------------------------------------------------------
  // Reading the text back
  // ---------------------------------------------------------------------

  /** The position of the first `c` in `s`, or `|s|` when there is none. */
  function FirstIndex(s: string, c: char): (i: nat)
    ensures i <= |s|
    ensures forall j :: 0 <= j < i ==> s[j] != c
    ensures i < |s| ==> s[i] == c
  {
    if s == [] || s[0] == c then 0 else 1 + FirstIndex(s[1..], c)
  }

  /** The number of characters after the last `c` in `s`, or `|s|` when
      there is none. */
  function LastOffset(s: string, c: char): (n: nat)
    ensures n <= |s|
    ensures forall j :: |s| - n <= j < |s| ==> s[j] != c
    ensures n < |s| ==> s[|s| - 1 - n] == c
  {
    if s == [] || s[|s| - 1] == c then 0 else 1 + LastOffset(s[..|s| - 1], c)
  }

  /** `s` cut at its first `c`, if it has one. */
  function SplitFirst(s: string, c: char): (r: Option<(string, string)>)
    ensures r.None? <==> c !in s
    ensures r.Some? ==> s == r.value.0 + [c] + r.value.1 && c !in r.value.0
  {
    var i := FirstIndex(s, c);
    if i == |s| then None
    else
      assert s == s[..i] + [c] + s[i + 1..];
      Some((s[..i], s[i + 1..]))
  }

  /** `s` cut at its last `c`, if it has one. */
  function SplitLast(s: string, c: char): (r: Option<(string, string)>)
    ensures r.None? <==> c !in s
    ensures r.Some? ==> s == r.value.0 + [c] + r.value.1 && c !in r.value.1
  {
    var n := LastOffset(s, c);
    if n == |s| then None
    else
      var i := |s| - 1 - n;
      assert s == s[..i] + [c] + s[i + 1..];
      Some((s[..i], s[i + 1..]))
  }

  lemma SplitFirstOf(a: string, c: char, b: string)
    requires c !in a
    ensures SplitFirst(a + [c] + b, c) == Some((a, b))
  {
    var s := a + [c] + b;
    FirstIndexOf(a, c, b);
    assert s[..|a|] == a && s[|a| + 1..] == b;
  }

  lemma {:induction false} FirstIndexOf(a: string, c: char, b: string)
    requires c !in a
    ensures FirstIndex(a + [c] + b, c) == |a|
  {
    if a != [] {
      assert (a + [c] + b)[1..] == a[1..] + [c] + b;
      FirstIndexOf(a[1..], c, b);
    }
  }

  lemma SplitLastOf(a: string, c: char, b: string)
    requires c !in b
    ensures SplitLast(a + [c] + b, c) == Some((a, b))
  {
    var s := a + [c] + b;
    LastOffsetOf(a, c, b);
    assert s[..|a|] == a && s[|a| + 1..] == b;
  }

  lemma {:induction false} LastOffsetOf(a: string, c: char, b: string)
    requires c !in b
    ensures LastOffset(a + [c] + b, c) == |b|
  {
    var s := a + [c] + b;
    if b != [] {
      var b' := b[..|b| - 1];
      assert s[..|s| - 1] == a + [c] + b';
      LastOffsetOf(a, c, b');
    }
  }

  /** A speaking-order line read back as (label, name). */
  function ParseSpeakingLine(line: string): Option<(string, string)>
  {
    SplitFirst(line, '.')
  }

  /** A role line read back as (label, name, role text): the label ends at
      the first `.`, the role text starts after the last `-`. */
  function ParseRoleLine(line: string): Option<(string, string, string)>
  {
    match SplitLast(line, '-')
    case None => None
    case Some(hr) =>
      match SplitFirst(hr.0, '.')
      case None => None
      case Some(on) => Some((on.0, on.1, hr.1))
  }

  /** A speaking-order line gives back its row's label and name, whatever the
      name, provided the label has no `.`. */
  lemma SpeakingLineRoundTrip(row: Table.Row)
    requires '.' !in row.order
    ensures ParseSpeakingLine(SpeakingLine(row)) == Some((row.order, row.name))
  {
    SplitFirstOf(row.order, '.', row.name);
  }

  /** A role line gives back label, name and role text, provided the label
      has no `.` and the role text has no `-`. */
  lemma RoleLineRoundTrip(row: Table.Row)
    requires '.' !in row.order && '-' !in RoleLabel(row.role)
    ensures ParseRoleLine(RoleLine(row)) == Some((row.order, row.name, RoleLabel(row.role)))
  {
    SplitLastOf(row.order + "." + row.name, '-', RoleLabel(row.role));
    SplitFirstOf(row.order, '.', row.name);
  }

  /** No field of the rows holds a line break. */
  predicate SingleLineRows(table: seq<Table.Row>)
  {
    forall i :: 0 <= i < |table| ==> '\n' !in table[i].order && '\n' !in table[i].name
  }

  /** The speaking-order text has one line per row, in table order, and each
      line reads back as that row's label and name. */
  lemma SpeakingOrderTextLines(table: seq<Table.Row>)
    requires table != []
    requires SingleLineRows(table)
    requires forall i :: 0 <= i < |table| ==> '.' !in table[i].order
    ensures var lines := Text.Split(SpeakingOrderText(table), '\n');
      |lines| == |table| &&
      forall i :: 0 <= i < |table| ==> ParseSpeakingLine(lines[i]) == Some((table[i].order, table[i].name))
  {
    var lines := Seqs.Map(table, SpeakingLine);
    forall i | 0 <= i < |table| ensures '\n' !in lines[i] {
      assert lines[i] == table[i].order + "." + table[i].name;
    }
    Text.SplitJoin(lines, '\n');
    forall i | 0 <= i < |table| ensures ParseSpeakingLine(lines[i]) == Some((table[i].order, table[i].name)) {
      SpeakingLineRoundTrip(table[i]);
    }
  }

  /** The role text has one line per row, in table order, and each line
      reads back as that row's label, name and role (`None` when it has
      none). */
  lemma RoleListTextLines(table: seq<Table.Row>)
    requires table != []
    requires SingleLineRows(table)
    requires forall i :: 0 <= i < |table| ==> '.' !in table[i].order
    requires forall i :: 0 <= i < |table| ==> '\n' !in RoleLabel(table[i].role) && '-' !in RoleLabel(table[i].role)
    ensures var lines := Text.Split(RoleListText(table), '\n');
      |lines| == |table| &&
      forall i :: 0 <= i < |table| ==>
        ParseRoleLine(lines[i]) == Some((table[i].order, table[i].name, RoleLabel(table[i].role)))
  {
    var lines := Seqs.Map(table, RoleLine);
    forall i | 0 <= i < |table| ensures '\n' !in lines[i] {
      assert lines[i] == table[i].order + "." + table[i].name + "-" + RoleLabel(table[i].role);
    }
    Text.SplitJoin(lines, '\n');
    forall i | 0 <= i < |table|
      ensures ParseRoleLine(lines[i]) == Some((table[i].order, table[i].name, RoleLabel(table[i].role)))
    {
      RoleLineRoundTrip(table[i]);
    }
  }
}
