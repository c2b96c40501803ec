/** What a format can say of a pane. */
module PaneNames {
  import opened Text
  import opened AgentTeam
  import opened PaneFormat
  import P = PaneFormatPieces
  import Decimal

  lemma {:induction false} ValueAt(values: seq<(string, string)>, i: nat)
    requires i < |values| && forall j | 0 <= j < i :: values[j].0 != values[i].0
    ensures P.ValueOf(values, values[i].0) == values[i].1
    decreases i
  {
    if i > 0 {
      ValueAt(values[1..], i - 1);
    }
  }

  lemma SessionKeys(pane: Pane)
    ensures var values := FormatValues(pane);
      && P.ValueOf(values, "session_name") == "suaegi" && P.ValueOf(values, "session_id") == "$0"
      && P.ValueOf(values, "window_id") == "@0" && P.ValueOf(values, "window_index") == "0"
  {
    hide Decimal.Print, P.ValueOf;
    var values := FormatValues(pane);
    ValueAt(values, 0);
    ValueAt(values, 1);
    ValueAt(values, 2);
    ValueAt(values, 3);
  }

  lemma WindowKeys(pane: Pane)
    ensures var values := FormatValues(pane);
      && P.ValueOf(values, "window_name") == "agent-teams" && P.ValueOf(values, "window_active") == "1"
      && P.ValueOf(values, "window_flags") == "*"
  {
    hide Decimal.Print, P.ValueOf;
    var values := FormatValues(pane);
    ValueAt(values, 4);
    ValueAt(values, 5);
    ValueAt(values, 6);
  }

  lemma PaneKeys(pane: Pane)
    ensures var values := FormatValues(pane);
      && P.ValueOf(values, "pane_id") == pane.id && P.ValueOf(values, "pane_index") == Decimal.Print(pane.index)
      && P.ValueOf(values, "pane_active") == if pane.id == "%1" then "1" else "0"
  {
    hide Decimal.Print, P.ValueOf;
    var values := FormatValues(pane);
    ValueAt(values, 7);
    ValueAt(values, 8);
    ValueAt(values, 9);
  }

  lemma NoBrace(pane: Pane, i: nat)
    requires '{' !in pane.id && i < |FormatValues(pane)|
    ensures '{' !in FormatValues(pane)[i].0 && '}' !in FormatValues(pane)[i].0 && '{' !in FormatValues(pane)[i].1
  {
    Decimal.PrintsDigits(pane.index);
    hide Decimal.Print;
  }

  /** The format that names a pane in full, in its pieces: session, window, place and id. */
  lemma NamesThePane(pane: Pane, fallback: string)
    requires '{' !in pane.id && pane.id != "" && !IsWhitespace(pane.id[|pane.id| - 1])
    ensures Render(P.Printed(FULL), FormatValues(pane), fallback)
        == "suaegi:0." + Decimal.Print(pane.index) + ":" + pane.id
  {
    hide Decimal.Print, FormatValues, Render, P.ValueOf, P.Printed, P.Meaning, IsWhitespace;
    forall i | 0 <= i < |FormatValues(pane)|
      ensures P.Clean(P.Placeholder(FormatValues(pane)[i].0)) && P.Clean(P.Literal(FormatValues(pane)[i].1))
    {
      NoBrace(pane, i);
    }
    SessionKeys(pane);
    PaneKeys(pane);
    FullIsClean();
    FullMeans(FormatValues(pane));
    P.RendersItsMeaning(FULL, FormatValues(pane), fallback);
    var text := "suaegi:0." + Decimal.Print(pane.index) + ":" + pane.id;
    Flatten(Decimal.Print(pane.index), pane.id);
    LettersAreNoBlanks();
    TrimsTo(text);
  }

  lemma Flatten(index: string, id: string)
    ensures "suaegi" + (":" + ("0" + ("." + (index + (":" + (id + "")))))) == "suaegi:0." + index + ":" + id
  {
  }

  lemma LettersAreNoBlanks()
    ensures !IsWhitespace('s')
  {
  }

  lemma TrimsTo(text: string)
    requires text != "" && !IsWhitespace(text[0]) && !IsWhitespace(text[|text| - 1])
    ensures Trim(text) == text
  {
    hide IsWhitespace;
  }

  /** `#{session_name}:#{window_index}.#{pane_index}:#{pane_id}` */
  const FULL := [P.Placeholder("session_name"), P.Literal(":"), P.Placeholder("window_index"), P.Literal("."),
                 P.Placeholder("pane_index"), P.Literal(":"), P.Placeholder("pane_id")]

  lemma MeaningStep(pieces: seq<P.Piece>, i: nat, values: seq<(string, string)>)
    requires i < |pieces|
    ensures P.Meaning(pieces[i..], values)
         == (if pieces[i].Literal? then pieces[i].text else P.ValueOf(values, pieces[i].key))
            + P.Meaning(pieces[i + 1..], values)
  {
    hide P.ValueOf;
    assert pieces[i..][1..] == pieces[i + 1..];
  }

  lemma NoPieces(values: seq<(string, string)>)
    ensures P.Meaning([], values) == ""
  {
  }

  lemma FullIsClean()
    ensures P.AllClean(FULL)
  {
    SessionKeysClean();
    PaneKeysClean();
    assert '{' !in ":" && '{' !in ".";
  }

  lemma SessionKeysClean()
    ensures '{' !in "session_name" && '}' !in "session_name" && '{' !in "window_index" && '}' !in "window_index"
  {
  }

  lemma PaneKeysClean()
    ensures '{' !in "pane_index" && '}' !in "pane_index" && '{' !in "pane_id" && '}' !in "pane_id"
  {
  }

  lemma FullMeans(values: seq<(string, string)>)
    ensures P.Meaning(FULL, values)
         == P.ValueOf(values, "session_name") + (":" + (P.ValueOf(values, "window_index")
            + ("." + (P.ValueOf(values, "pane_index") + (":" + (P.ValueOf(values, "pane_id") + ""))))))
  {
    hide P.Meaning, P.ValueOf;
    MeaningStep(FULL, 0, values);
    MeaningStep(FULL, 1, values);
    MeaningStep(FULL, 2, values);
    MeaningStep(FULL, 3, values);
    MeaningStep(FULL, 4, values);
    MeaningStep(FULL, 5, values);
    MeaningStep(FULL, 6, values);
    NoPieces(values);
    assert FULL[0..] == FULL && FULL[7..] == [];
  }
}
