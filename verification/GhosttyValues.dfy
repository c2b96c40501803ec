/** Which values each key accepts, and what it then writes: told key by key, for every value. */
module GhosttyValues {
  import opened Text
  import opened GhosttyConfig
  import opened GhosttyMapping
  import Decimal

  // Names

  lemma ThemeNames()
    ensures KeyOf("background") == BackgroundKey && KeyOf("foreground") == ForegroundKey
    ensures KeyOf("cursor-color") == CursorColour && KeyOf("cursor-text") == CursorText
    ensures KeyOf("selection-background") == SelectionBackgroundKey
    ensures KeyOf("selection-foreground") == SelectionForegroundKey && KeyOf("bold-color") == BoldColour
    ensures KeyOf("palette") == Palette && KeyOf("split-divider-color") == SplitDivider
  {
  }

  lemma FontNames()
    ensures KeyOf("font-family") == FontFamilyKey && KeyOf("font-size") == FontSizeKey
    ensures KeyOf("font-weight") == FontWeightKey && KeyOf("cursor-style") == CursorStyleKey
    ensures KeyOf("cursor-style-blink") == CursorBlinkKey && KeyOf("adjust-cell-height") == CellHeightKey
  {
    hide WindowKey, InputKey;
  }

  lemma WindowNames()
    ensures KeyOf("background-opacity") == OpacityKey && KeyOf("background-blur-radius") == BlurRadius
    ensures KeyOf("unfocused-split-opacity") == UnfocusedSplit && KeyOf("cursor-opacity") == CursorOpacityKey
  {
    hide InputKey;
  }

  lemma PaddingNames()
    ensures KeyOf("window-padding-x") == WindowPaddingX && KeyOf("window-padding-y") == WindowPaddingY
  {
    hide InputKey;
  }

  lemma InputNames()
    ensures KeyOf("macos-option-as-alt") == MacOptionKey && KeyOf("mouse-hide-while-typing") == MouseHideKey
    ensures KeyOf("focus-follows-mouse") == FocusFollows
  {
  }

  lemma MoreInputNames()
    ensures KeyOf("middle-click-action") == MiddleClick && KeyOf("selection-word-chars") == SelectionWordChars
  {
  }

  // One value

  /** Accepted, writing exactly this. */
  predicate Sets(o: Outcome, field: Field, value: Value) {
    o.accepted && o.writes == map[field := value] && o.notes == {}
  }

  predicate Refused(o: Outcome) {
    !o.accepted && o.writes == map[] && o.notes == {}
  }

  /** What the key does with its last value, which is not blank. */
  lemma LastValueCounts(name: string, values: seq<string>, p: Platform)
    requires Trim(LastOf(values)) != "" && KeyOf(name) != SelectionWordChars && KeyOf(name) != GhosttyMapping.Palette
    ensures Effect(name, values, p) == Scalar(KeyOf(name), Trim(LastOf(values)), p)
  {
    hide Scalar, Trim, KeyOf;
  }

  /** A blank value is refused by every key, and `selection-word-chars` refuses every value. */
  lemma BlankIsRefused(name: string, values: seq<string>, p: Platform)
    ensures Trim(LastOf(values)) == "" || name == "selection-word-chars" ==> Refused(Effect(name, values, p))
  {
    MoreInputNames();
    hide Scalar, Trim, KeyOf;
  }

  /** Three or six hexadecimal digits, after a hash or not. */
  predicate ColourText(text: string, digits: string) {
    && (text == digits || text == "#" + digits) && (|digits| == 3 || |digits| == 6)
    && forall i | 0 <= i < |digits| :: HexDigit(digits[i])
  }

  lemma ColourIff(text: string, digits: string)
    ensures ColourText(text, digits) ==> ValidHex(text) == Some("#" + Lower(digits))
    ensures ValidHex(text).Some? ==> ColourText(text, StripPrefix(text, '#'))
  {
    if text == "#" + digits {
      assert text[1..] == digits;
    }
    if text != "" && text[0] == '#' {
      assert text == "#" + text[1..];
    }
    hide Lower;
  }

  lemma HexDigitIff(c: char)
    ensures HexDigit(c) <==> c in "0123456789abcdefABCDEF"
  {
    var digits := "0123456789abcdefABCDEF";
    if HexDigit(c) {
      assert '0' <= c <= '9' ==> digits[c as int - 48] == c;
      assert 'a' <= c <= 'f' ==> digits[c as int - 97 + 10] == c;
      assert 'A' <= c <= 'F' ==> digits[c as int - 65 + 16] == c;
    }
  }

  const COLOURS := map[
    "background" := Background, "foreground" := Foreground, "cursor-color" := Cursor, "cursor-text" := CursorAccent,
    "selection-background" := SelectionBackground, "selection-foreground" := SelectionForeground, "bold-color" := Bold]

  /** A colour key sets its own colour, in small letters after a hash; it refuses what is no colour. */
  lemma ColourKeySets(name: string, value: string, digits: string, p: Platform)
    requires name in COLOURS
    ensures ColourText(value, digits) ==> Sets(Scalar(KeyOf(name), value, p), COLOURS[name], Str("#" + Lower(digits)))
    ensures !ColourText(value, StripPrefix(value, '#')) ==> Refused(Scalar(KeyOf(name), value, p))
  {
    ThemeNames();
    ColourIff(value, digits);
    hide ValidHex, ColourText, KeyOf, Lower, StripPrefix, Trim;
  }

  /** The divider has one colour in dark and in light themes. */
  lemma DividerSets(value: string, digits: string, p: Platform)
    ensures ColourText(value, digits) ==>
      Scalar(KeyOf("split-divider-color"), value, p)
      == Outcome(true, map[DividerDark := Str("#" + Lower(digits)), DividerLight := Str("#" + Lower(digits))], {})
    ensures !ColourText(value, StripPrefix(value, '#')) ==> Refused(Scalar(KeyOf("split-divider-color"), value, p))
  {
    ThemeNames();
    ColourIff(value, digits);
    hide ValidHex, ColourText, KeyOf, Lower, StripPrefix, Trim;
  }

  const SWITCHES := map[
    "mouse-hide-while-typing" := MouseHide, "cursor-style-blink" := CursorBlink,
    "focus-follows-mouse" := FocusFollowsMouse]

  lemma SwitchKeySets(name: string, value: string, p: Platform)
    requires name in SWITCHES
    ensures var o := Scalar(KeyOf(name), value, p);
      && (value == "true" ==> Sets(o, SWITCHES[name], Flag(true)))
      && (value == "false" ==> Sets(o, SWITCHES[name], Flag(false)))
      && (value != "true" && value != "false" ==> Refused(o))
  {
    InputNames();
    FontNames();
    hide KeyOf, Trim;
  }

  lemma StyleKeysSet(value: string, p: Platform)
    ensures var o := Scalar(KeyOf("cursor-style"), value, p);
      if value in {"bar", "block", "underline"} then Sets(o, CursorStyle, Str(value)) else Refused(o)
    ensures var o := Scalar(KeyOf("middle-click-action"), value, p);
      if value == "primary-paste" then Sets(o, MiddleClickPaste, Flag(true))
      else if value == "ignore" then Sets(o, MiddleClickPaste, Flag(false))
      else Refused(o)
    ensures Sets(Scalar(KeyOf("font-family"), value, p), FontFamily, Str(value))
  {
    MoreInputNames();
    FontNames();
    hide KeyOf, Trim;
  }

  /** The option key: on and off by two names each, left and right; anything else blanks the setting, and elsewhere
      than on macOS the key is refused. */
  lemma OptionKeySets(value: string, p: Platform)
    ensures var o := Scalar(KeyOf("macos-option-as-alt"), value, p);
      if !p.mac then Refused(o)
      else if value in {"true", "on"} then Sets(o, MacOptionAsAlt, Str("true"))
      else if value in {"false", "off"} then Sets(o, MacOptionAsAlt, Str("false"))
      else if value in {"left", "right"} then Sets(o, MacOptionAsAlt, Str(value))
      else !o.accepted && o.writes == map[MacOptionAsAlt := Str("")]
  {
    InputNames();
    hide KeyOf, Trim;
  }

  // Numbers

  lemma PrintDigits(n: nat)
    ensures Digits(Decimal.Print(n)) && Decimal.Print(n)[0] != '-' && Decimal.Print(n)[0] != '+'
  {
    Decimal.PrintsDigits(n);
    hide Decimal.Print;
  }

  lemma PrintedInteger(n: nat)
    requires n < 0x8000_0000_0000_0000
    ensures DecimalInteger(Decimal.Print(n)) == Some(n as int) && Unsigned(Decimal.Print(n)) == Some(n)
    ensures Trim(Decimal.Print(n)) == Decimal.Print(n)
  {
    PrintDigits(n);
    Decimal.ReadPrint(n);
    hide Decimal.Print, Decimal.Read;
    TrimPrinted(Decimal.Print(n));
  }

  lemma TrimPrinted(text: string)
    requires Digits(text)
    ensures Trim(text) == text
  {
    assert !IsWhitespace(text[0]) && !IsWhitespace(text[|text| - 1]);
  }

  /** An integer is one of 64 bits, with its sign. */
  lemma IntegerIff(n: nat)
    ensures DecimalInteger(Decimal.Print(n)) == if n < 0x8000_0000_0000_0000 then Some(n as int) else None
    ensures DecimalInteger("-" + Decimal.Print(n)) == if n <= 0x8000_0000_0000_0000 then Some(-(n as int)) else None
  {
    PrintDigits(n);
    Decimal.ReadPrint(n);
    var text := Decimal.Print(n);
    hide Decimal.Print, Decimal.Read;
    assert ("-" + text)[1..] == text;
  }

  /** A blur radius is kept as on or off, with a note when it is on. */
  lemma BlurSets(n: nat, value: string, p: Platform)
    ensures n < 0x8000_0000_0000_0000 ==>
      Scalar(KeyOf("background-blur-radius"), Decimal.Print(n), p)
      == Outcome(true, map[WindowBlur := Flag(n > 0)],
                 if n > 0 then {"background-blur-radius (radius value not preserved)"} else {})
    ensures DecimalInteger(value).None? || DecimalInteger(value).value < 0 ==>
      Refused(Scalar(KeyOf("background-blur-radius"), value, p))
  {
    hide KeyOf, DecimalInteger, Decimal.Print, Decimal.Read, Unsigned, Trim, Digits;
    WindowNames();
    if n < 0x8000_0000_0000_0000 {
      PrintedInteger(n);
    }
  }

  /** A weight from 100 to 900 is kept, others are refused. */
  lemma WeightSets(n: nat, p: Platform)
    requires n < 0x8000_0000_0000_0000
    ensures var o := Scalar(KeyOf("font-weight"), Decimal.Print(n), p);
      if 100 <= n <= 900 then Sets(o, FontWeight, Number(n)) else Refused(o)
  {
    hide KeyOf, Unsigned, Decimal.Print, Decimal.Read, DecimalInteger, Trim, Digits;
    FontNames();
    PrintedInteger(n);
  }

  lemma NoComma(n: nat)
    ensures Find(Decimal.Print(n), ",", 0) == None
  {
    PrintDigits(n);
    var text := Decimal.Print(n);
    hide Decimal.Print;
    forall i | 0 <= i < |text| ensures !OccursAt(text, ",", i) {
      assert text[i..i + 1][0] == text[i];
    }
    FindIsLeftmost(text, ",", 0);
  }

  lemma SplitPair(a: string, b: string)
    requires Find(a, ",", 0) == None && Find(b, ",", 0) == None
    ensures Split(a + "," + b, ",") == [a, b] && Split(a, ",") == [a]
  {
    var text := a + "," + b;
    assert text[|a|..|a| + 1] == ",";
    FindIsLeftmost(a, ",", 0);
    forall i | 0 <= i < |a| ensures !OccursAt(text, ",", i) {
      assert text[i..i + 1] == a[i..i + 1];
      assert !OccursAt(a, ",", i);
    }
    FindAt(text, ",", 0, |a|);
    assert text[..|a|] == a && text[|a| + 1..] == b;
    hide Find;
    assert Split(b, ",") == [b];
  }

  /** One padding for both sides, or two whose average is kept. */
  lemma PaddingReads(a: nat, b: nat)
    requires a < 0x8000_0000_0000_0000 && b < 0x8000_0000_0000_0000
    ensures Padding(Decimal.Print(a)) == if a <= 512 then Some(a) else None
    ensures Padding(Decimal.Print(a) + "," + Decimal.Print(b))
         == if a <= 512 && b <= 512 then Some((a + b) / 2) else None
  {
    hide Decimal.Print, DecimalInteger, Split, Trim, Find, Unsigned, Padding;
    NoComma(a);
    NoComma(b);
    PrintedInteger(a);
    PrintedInteger(b);
    SplitPair(Decimal.Print(a), Decimal.Print(b));
    PaddingOf(Decimal.Print(a), [Decimal.Print(a)], a, a);
    PaddingOf(Decimal.Print(a) + "," + Decimal.Print(b), [Decimal.Print(a), Decimal.Print(b)], a, b);
  }

  lemma PaddingOf(value: string, parts: seq<string>, a: nat, b: nat)
    requires Split(value, ",") == parts && 1 <= |parts| <= 2
    requires DecimalInteger(Trim(parts[0])) == Some(a as int)
        && DecimalInteger(Trim(parts[|parts| - 1])) == Some(b as int)
    ensures Padding(value) == if a <= 512 && b <= 512 then Some((a + b) / 2) else None
  {
    hide DecimalInteger, Split, Trim;
  }

  predicate SetsOrRefuses(o: Outcome, field: Field, n: Option<nat>) {
    if n.Some? then Sets(o, field, Number(n.value)) else Refused(o)
  }

  lemma PaddingKeysSet(value: string, p: Platform)
    ensures var (x, y) := (Scalar(KeyOf("window-padding-x"), value, p), Scalar(KeyOf("window-padding-y"), value, p));
      SetsOrRefuses(x, PaddingX, Padding(value)) && SetsOrRefuses(y, PaddingY, Padding(value))
  {
    PaddingNames();
    hide KeyOf, Padding;
  }

  /** Shares, sizes and heights go through the platform's numbers, each to its own setting; a height is a
      percentage, with a plus sign or without. */
  lemma MeasuresSet(value: string, p: Platform)
    ensures SetsOrRefuses(Scalar(KeyOf("background-opacity"), value, p), BackgroundOpacity, p.percent(value))
    ensures SetsOrRefuses(Scalar(KeyOf("unfocused-split-opacity"), value, p), InactivePaneOpacity, p.percent(value))
    ensures SetsOrRefuses(Scalar(KeyOf("cursor-opacity"), value, p), CursorOpacity, p.percent(value))
    ensures SetsOrRefuses(Scalar(KeyOf("font-size"), value, p), FontSize, p.fontSize(value))
    ensures value != "" && value[0] != '+' ==>
      && SetsOrRefuses(Scalar(KeyOf("adjust-cell-height"), value + "%", p), LineHeight, p.lineHeight(value))
      && SetsOrRefuses(Scalar(KeyOf("adjust-cell-height"), "+" + value + "%", p), LineHeight, p.lineHeight(value))
    ensures '%' !in value ==> Refused(Scalar(KeyOf("adjust-cell-height"), value, p))
  {
    WindowNames();
    FontNames();
    assert (value + "%")[..|value|] == value && ("+" + value + "%")[1..] == value + "%";
    hide KeyOf;
  }

  lemma ColourTrims(text: string, digits: string)
    requires ColourText(text, digits)
    ensures Trim(text) == text
  {
    assert HexDigit(digits[0]) && HexDigit(digits[|digits| - 1]);
    assert !IsWhitespace(text[0]) && !IsWhitespace(text[|text| - 1]);
  }

  /** A palette entry names one of sixteen slots and its colour. */
  lemma PaletteEntryReads(n: nat, text: string, digits: string)
    requires n < 0x8000_0000_0000_0000 && ColourText(text, digits)
    ensures PaletteEntry(Decimal.Print(n) + "=" + text) == if n < 16 then Some((n, "#" + Lower(digits))) else None
  {
    PrintDigits(n);
    PrintedInteger(n);
    ColourTrims(text, digits);
    ColourIff(text, digits);
    hide Decimal.Print, Trim, Unsigned, ValidHex, ColourText, Lower, IndexOf;
    var entry := Decimal.Print(n) + "=" + text;
    assert entry[..|Decimal.Print(n)|] == Decimal.Print(n) && entry[|Decimal.Print(n)| + 1..] == text;
    IndexOfUnique(entry, '=', |Decimal.Print(n)|);
  }

  /** A key of another name is refused. */
  lemma OthersAreRefused(name: string, values: seq<string>, p: Platform)
    requires KeyOf(name) == Unknown(name)
    ensures Refused(Effect(name, values, p))
  {
    hide KeyOf, Trim;
  }

  const KNOWN := {
    "background", "foreground", "cursor-color", "cursor-text", "selection-background", "selection-foreground",
    "bold-color", "palette", "split-divider-color", "font-family", "font-size", "font-weight", "cursor-style",
    "cursor-style-blink", "adjust-cell-height", "background-opacity", "background-blur-radius",
    "unfocused-split-opacity", "cursor-opacity", "window-padding-x", "window-padding-y", "macos-option-as-alt",
    "mouse-hide-while-typing", "focus-follows-mouse", "middle-click-action", "selection-word-chars"}

  lemma UnknownIff(name: string)
    ensures name !in KNOWN ==> KeyOf(name) == Unknown(name)
  {
  }
}
