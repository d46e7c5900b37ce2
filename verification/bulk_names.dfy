/** The "反映" button: a comma-separated line of names is split, trimmed,
    cleared of empty entries and written over the front of the fixed
    player slots. */
module BulkNames {
  import Seqs
  import Text

  /** The script keeps thirteen player slots whatever the participant count. */
  const PlayerSlots: nat := 13

  /** The initial player slots: thirteen empty names. */
  function InitialPlayers(): (r: seq<string>)
    ensures |r| == PlayerSlots
    ensures forall i :: 0 <= i < |r| ==> r[i] == ""
  {
    seq(PlayerSlots, _ => "")
  }

  /** A name as the parser can produce it: not empty, no comma, and no
      whitespace at either end. */
  predicate IsToken(s: string)
  {
    s != [] && ',' !in s && Text.Trimmed(s)
  }

  /** A piece that holds more than whitespace. */
  predicate Named(piece: string)
  {
    !Text.AllSpace(piece)
  }

  /** The names in a comma-separated line: the line is cut at every comma,
      each piece is stripped of surrounding whitespace, and the pieces that
      strip to nothing are dropped, keeping the order of the line. */
  function ParseNames(text: string): (names: seq<string>)
    ensures names == Seqs.Map(Seqs.Filter(Text.Split(text, ','), Named), Text.Strip)
    ensures forall i :: 0 <= i < |names| ==> IsToken(names[i])
  {
    TokensStripNamed(Text.Split(text, ','));
    TokensOf(Text.Split(text, ','))
  }

  /** The stripped, non-empty pieces of `pieces`, in order. */
  function TokensOf(pieces: seq<string>): (names: seq<string>)
    requires forall i :: 0 <= i < |pieces| ==> ',' !in pieces[i]
    ensures |names| <= |pieces|
    ensures forall i :: 0 <= i < |names| ==> IsToken(names[i])
  {
    if pieces == [] then []
    else
      var t := Text.Strip(pieces[0]);
      var rest := TokensOf(pieces[1..]);
      if t == [] then rest
      else
        StrippedToken(pieces[0]);
        [t] + rest
  }

  /** A comma-free piece that does not strip to nothing strips to a name. */
  lemma StrippedToken(piece: string)
    requires ',' !in piece && Text.Strip(piece) != []
    ensures IsToken(Text.Strip(piece))
  {
    Text.StripKeeps(piece, ',');
  }

  /** The names are the stripped pieces that are not all whitespace, in
      order. */
  lemma {:induction false} TokensStripNamed(pieces: seq<string>)
    requires forall i :: 0 <= i < |pieces| ==> ',' !in pieces[i]
    ensures TokensOf(pieces) == Seqs.Map(Seqs.Filter(pieces, Named), Text.Strip)
  {
    if pieces != [] {
      TokensStripNamed(pieces[1..]);
      Text.StripEmpty(pieces[0]);
      var head := if Named(pieces[0]) then [pieces[0]] else [];
      Seqs.MapAppend(head, Seqs.Filter(pieces[1..], Named), Text.Strip);
    }
  }

  /** A space after the comma is not part of the next name. */
  lemma ParseTwoNames()
    ensures ParseNames("Alice, Bob") == ["Alice", "Bob"]
  {
    SplitTwoNames();
    TokensTwoNames();
  }

  lemma TokensTwoNames()
    ensures TokensOf(["Alice", " Bob"]) == ["Alice", "Bob"]
  {
    StripAlice();
    TokensBob();
    assert ["Alice", " Bob"][1..] == [" Bob"];
  }

  lemma TokensBob()
    ensures TokensOf([" Bob"]) == ["Bob"]
  {
    StripBob();
    assert [" Bob"][1..] == [];
  }

  lemma SplitTwoNames()
    ensures Text.Split("Alice, Bob", ',') == ["Alice", " Bob"]
  {
    Text.SplitAfterPiece("Alice", ',', " Bob");
    Text.SplitNoSeparator(" Bob", ',');
    assert "Alice, Bob" == "Alice" + [','] + " Bob";
  }

  lemma StripAlice()
    ensures Text.Strip("Alice") == "Alice"
  {
    Text.StripTrimmed("Alice");
  }

  lemma StripBob()
    ensures Text.Strip(" Bob") == "Bob"
  {
    assert " Bob"[1..] == "Bob";
    assert Text.LeadingSpaces("Bob") == 0;
    assert Text.LeadingSpaces(" Bob") == 1;
    assert Text.TrailingSpaces("Bob") == 0;
    assert " Bob"[1..|" Bob"|] == "Bob";
  }

  /** One name per piece that is not all whitespace, so blank entries such as
      `"A,,B"` or `"A, ,B"` are dropped. */
  lemma {:induction false} TokensCount(pieces: seq<string>)
    requires forall i :: 0 <= i < |pieces| ==> ',' !in pieces[i]
    ensures |TokensOf(pieces)| == |pieces| - Seqs.Count(pieces, Text.AllSpace)
  {
    if pieces != [] {
      TokensCount(pieces[1..]);
      Text.StripEmpty(pieces[0]);
    }
  }

  /** Joining names with commas and parsing the result gives the names back. */
  lemma {:induction false} ParseJoin(names: seq<string>)
    requires forall i :: 0 <= i < |names| ==> IsToken(names[i])
    ensures ParseNames(Text.Join(names, ',')) == names
  {
    if names == [] {
      assert Text.Split("", ',') == [""];
      Text.StripEmpty("");
    } else {
      Text.SplitJoin(names, ',');
      TokensOfTokens(names);
    }
  }

  lemma {:induction false} TokensOfTokens(names: seq<string>)
    requires forall i :: 0 <= i < |names| ==> IsToken(names[i])
    ensures (forall i :: 0 <= i < |names| ==> ',' !in names[i]) && TokensOf(names) == names
  {
    if names != [] {
      Text.StripTrimmed(names[0]);
      TokensOfTokens(names[1..]);
    }
  }

  /** The button handler: the i-th parsed name replaces `players[i]` while
      there are slots left; every other slot is kept. */
  method ApplyBulkNames(players: seq<string>, text: string) returns (r: seq<string>)
    ensures |r| == |players|
    ensures forall i :: 0 <= i < |r| && i < |ParseNames(text)| ==> r[i] == ParseNames(text)[i]
    ensures forall i :: |ParseNames(text)| <= i < |r| ==> r[i] == players[i]
  {
    r := WriteNames(players, ParseNames(text));
  }

  /** The handler's loop: the i-th name is written into slot i, for as many
      names as there are, skipping the names that have no slot left. */
  method WriteNames(players: seq<string>, names: seq<string>) returns (r: seq<string>)
    ensures |r| == |players|
    ensures forall i :: 0 <= i < |r| && i < |names| ==> r[i] == names[i]
    ensures forall i :: |names| <= i < |r| ==> r[i] == players[i]
  {
    r := players;
    for idx := 0 to |names|
      invariant |r| == |players|
      invariant forall i :: 0 <= i < |r| ==> r[i] == if i < idx then names[i] else players[i]
    {
      if idx < |r| {
        r := r[idx := names[idx]];
      }
    }
  }
}
