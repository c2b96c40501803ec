/** From Ghostty's keys to terminal settings, in whatever order the keys come. */
module GhosttyMapping {
  import opened Text
  import opened GhosttyConfig
  import Decimal

  datatype Field =
    | Slot(index: nat)
    | Background | Foreground | Cursor | CursorAccent | SelectionBackground | SelectionForeground | Bold
    | MacOptionAsAlt | BackgroundOpacity | WindowBlur | DividerDark | DividerLight
    | CursorOpacity | InactivePaneOpacity | PaddingX | PaddingY | LineHeight
    | MouseHide | CursorBlink | FocusFollowsMouse
    | FontFamily | FontSize | FontWeight | CursorStyle | MiddleClickPaste

  datatype Value = Str(text: string) | Number(n: nat) | Flag(on: bool)
  type Settings = map<Field, Value>

  /** The platform, and what floating-point numbers become: a share in percent, a line height, a font size;
      nothing if the text is no number or is out of range. */
  datatype Platform = Platform(mac: bool, percent: string -> Option<nat>, lineHeight: string -> Option<nat>,
                               fontSize: string -> Option<nat>)

  // Values

  predicate HexDigit(c: char) {
    '0' <= c <= '9' || 'a' <= c <= 'f' || 'A' <= c <= 'F'
  }

  function StripPrefix(value: string, c: char): string {
    if value != "" && value[0] == c then value[1..] else value
  }

  function ValidHex(value: string): Option<string> {
    var raw := StripPrefix(value, '#');
    if (|raw| == 3 || |raw| == 6) && forall i | 0 <= i < |raw| :: HexDigit(raw[i]) then Some("#" + Lower(raw)) else None
  }

  predicate Digits(text: string) {
    text != "" && forall i | 0 <= i < |text| :: '0' <= text[i] <= '9'
  }

  /** `decimal_integer`, with the bounds of a 64-bit integer. */
  function DecimalInteger(value: string): Option<int> {
    var negative := value != "" && value[0] == '-';
    var digits := if negative then value[1..] else value;
    var n: int := Decimal.Read(digits);
    if !Digits(digits) || n > 0x8000_0000_0000_0000 || (!negative && n == 0x8000_0000_0000_0000) then None
    else Some(if negative then -n else n)
  }

  /** `parse` for an unsigned integer, which may carry a plus sign. */
  function Unsigned(value: string): Option<nat> {
    var digits := StripPrefix(value, '+');
    if Digits(digits) then Some(Decimal.Read(digits)) else None
  }

  /** One number or two, each from 0 to 512; their average. */
  function Padding(value: string): Option<nat> {
    var parts := Split(value, ",");
    if |parts| > 2 then None
    else
      var first, last := DecimalInteger(Trim(parts[0])), DecimalInteger(Trim(parts[|parts| - 1]));
      if first.None? || last.None? || !(0 <= first.value <= 512) || !(0 <= last.value <= 512) then None
      else Some((first.value + last.value) / 2)
  }

  // Keys

  datatype Key =
    | BackgroundKey | ForegroundKey | CursorColour | CursorText | SelectionBackgroundKey
    | SelectionForegroundKey | BoldColour | Palette | SelectionWordChars | MacOptionKey | OpacityKey
    | BlurRadius | SplitDivider | UnfocusedSplit | CursorOpacityKey | WindowPaddingX | WindowPaddingY
    | CellHeightKey | MouseHideKey | CursorBlinkKey | FocusFollows | FontFamilyKey | FontSizeKey
    | FontWeightKey | CursorStyleKey | MiddleClick | Unknown(name: string)

  function KeyName(key: Key): string {
    match key
    case BackgroundKey => "background"
    case ForegroundKey => "foreground"
    case CursorColour => "cursor-color"
    case CursorText => "cursor-text"
    case SelectionBackgroundKey => "selection-background"
    case SelectionForegroundKey => "selection-foreground"
    case BoldColour => "bold-color"
    case Palette => "palette"
    case SelectionWordChars => "selection-word-chars"
    case MacOptionKey => "macos-option-as-alt"
    case OpacityKey => "background-opacity"
    case BlurRadius => "background-blur-radius"
    case SplitDivider => "split-divider-color"
    case UnfocusedSplit => "unfocused-split-opacity"
    case CursorOpacityKey => "cursor-opacity"
    case WindowPaddingX => "window-padding-x"
    case WindowPaddingY => "window-padding-y"
    case CellHeightKey => "adjust-cell-height"
    case MouseHideKey => "mouse-hide-while-typing"
    case CursorBlinkKey => "cursor-style-blink"
    case FocusFollows => "focus-follows-mouse"
    case FontFamilyKey => "font-family"
    case FontSizeKey => "font-size"
    case FontWeightKey => "font-weight"
    case CursorStyleKey => "cursor-style"
    case MiddleClick => "middle-click-action"
    case Unknown(name) => name
  }

  function ThemeKey(name: string): (key: Option<Key>)
    ensures key.Some? ==> KeyName(key.value) == name
  {
    match name
    case "background" => Some(BackgroundKey)
    case "foreground" => Some(ForegroundKey)
    case "cursor-color" => Some(CursorColour)
    case "cursor-text" => Some(CursorText)
    case "selection-background" => Some(SelectionBackgroundKey)
    case "selection-foreground" => Some(SelectionForegroundKey)
    case "bold-color" => Some(BoldColour)
    case "palette" => Some(Palette)
    case "split-divider-color" => Some(SplitDivider)
    case _ => None
  }

  function FontKey(name: string): (key: Option<Key>)
    ensures key.Some? ==> KeyName(key.value) == name
  {
    match name
    case "font-family" => Some(FontFamilyKey)
    case "font-size" => Some(FontSizeKey)
    case "font-weight" => Some(FontWeightKey)
    case "cursor-style" => Some(CursorStyleKey)
    case "cursor-style-blink" => Some(CursorBlinkKey)
    case "adjust-cell-height" => Some(CellHeightKey)
    case _ => None
  }

  function WindowKey(name: string): (key: Option<Key>)
    ensures key.Some? ==> KeyName(key.value) == name
  {
    match name
    case "background-opacity" => Some(OpacityKey)
    case "background-blur-radius" => Some(BlurRadius)
    case "unfocused-split-opacity" => Some(UnfocusedSplit)
    case "cursor-opacity" => Some(CursorOpacityKey)
    case "window-padding-x" => Some(WindowPaddingX)
    case "window-padding-y" => Some(WindowPaddingY)
    case _ => None
  }

  function InputKey(name: string): (key: Option<Key>)
    ensures key.Some? ==> KeyName(key.value) == name
  {
    match name
    case "macos-option-as-alt" => Some(MacOptionKey)
    case "mouse-hide-while-typing" => Some(MouseHideKey)
    case "focus-follows-mouse" => Some(FocusFollows)
    case "middle-click-action" => Some(MiddleClick)
    case "selection-word-chars" => Some(SelectionWordChars)
    case _ => None
  }

  /** Different names are different keys. */
  function KeyOf(name: string): (key: Key)
    ensures KeyName(key) == name
  {
    if ThemeKey(name).Some? then ThemeKey(name).value
    else if FontKey(name).Some? then FontKey(name).value
    else if WindowKey(name).Some? then WindowKey(name).value
    else if InputKey(name).Some? then InputKey(name).value
    else Unknown(name)
  }

  datatype Outcome = Outcome(accepted: bool, writes: Settings, notes: set<string>)

  const REJECTED := Outcome(false, map[], {})

  function Write(field: Field, value: Option<Value>): (outcome: Outcome)
    ensures outcome.writes.Keys <= {field}
  {
    if value.Some? then Outcome(true, map[field := value.value], {}) else REJECTED
  }

  function Num(n: Option<nat>): Option<Value> {
    if n.Some? then Some(Number(n.value)) else None
  }

  function Switch(value: string): Option<Value> {
    if value == "true" || value == "false" then Some(Flag(value == "true")) else None
  }

  function Style(value: string): Option<Value> {
    if value == "bar" || value == "block" || value == "underline" then Some(Str(value)) else None
  }

  function Paste(value: string): Option<Value> {
    if value == "primary-paste" || value == "ignore" then Some(Flag(value == "primary-paste")) else None
  }

  function MacOption(value: string): (outcome: Outcome)
    ensures outcome.writes.Keys <= {MacOptionAsAlt}
  {
    match value
    case "true" => Write(MacOptionAsAlt, Some(Str("true")))
    case "on" => Write(MacOptionAsAlt, Some(Str("true")))
    case "false" => Write(MacOptionAsAlt, Some(Str("false")))
    case "off" => Write(MacOptionAsAlt, Some(Str("false")))
    case "left" => Write(MacOptionAsAlt, Some(Str("left")))
    case "right" => Write(MacOptionAsAlt, Some(Str("right")))
    case _ => Outcome(false, map[MacOptionAsAlt := Str("")], {})
  }

  const BLUR_NOTE := "background-blur-radius (radius value not preserved)"

  function Blur(value: string): (outcome: Outcome)
    ensures outcome.writes.Keys <= {WindowBlur}
  {
    var number := DecimalInteger(value);
    if number.None? || number.value < 0 then REJECTED
    else Outcome(true, map[WindowBlur := Flag(number.value > 0)], if number.value > 0 then {BLUR_NOTE} else {})
  }

  function Divider(value: string): (outcome: Outcome)
    ensures outcome.writes.Keys <= {DividerDark, DividerLight}
  {
    var colour := ValidHex(value);
    if colour.None? then REJECTED
    else Outcome(true, map[DividerDark := Str(colour.value), DividerLight := Str(colour.value)], {})
  }

  function CellHeight(value: string, p: Platform): (outcome: Outcome)
    ensures outcome.writes.Keys <= {LineHeight}
  {
    var text := StripPrefix(value, '+');
    if text != "" && text[|text| - 1] == '%' then Write(LineHeight, Num(p.lineHeight(text[..|text| - 1]))) else REJECTED
  }

  function Weight(value: string): (outcome: Outcome)
    ensures outcome.writes.Keys <= {FontWeight}
  {
    var number := Unsigned(value);
    if number.Some? && 100 <= number.value <= 900 then Write(FontWeight, Num(number)) else REJECTED
  }

  function Colour(field: Field, value: string): (outcome: Outcome)
    ensures outcome.writes.Keys <= {field}
  {
    var colour := ValidHex(value);
    Write(field, if colour.Some? then Some(Str(colour.value)) else None)
  }

  /** What a key other than the palette does with its last value. */
  function Scalar(key: Key, value: string, p: Platform): Outcome {
    match key
    case BackgroundKey => Colour(Background, value)
    case ForegroundKey => Colour(Foreground, value)
    case CursorColour => Colour(Cursor, value)
    case CursorText => Colour(CursorAccent, value)
    case SelectionBackgroundKey => Colour(SelectionBackground, value)
    case SelectionForegroundKey => Colour(SelectionForeground, value)
    case BoldColour => Colour(Bold, value)
    case MacOptionKey => if p.mac then MacOption(value) else REJECTED
    case OpacityKey => Write(BackgroundOpacity, Num(p.percent(value)))
    case BlurRadius => Blur(value)
    case SplitDivider => Divider(value)
    case UnfocusedSplit => Write(InactivePaneOpacity, Num(p.percent(value)))
    case CursorOpacityKey => Write(CursorOpacity, Num(p.percent(value)))
    case WindowPaddingX => Write(PaddingX, Num(Padding(value)))
    case WindowPaddingY => Write(PaddingY, Num(Padding(value)))
    case CellHeightKey => CellHeight(value, p)
    case MouseHideKey => Write(MouseHide, Switch(value))
    case CursorBlinkKey => Write(CursorBlink, Switch(value))
    case FocusFollows => Write(FocusFollowsMouse, Switch(value))
    case FontFamilyKey => Write(FontFamily, Some(Str(value)))
    case FontSizeKey => Write(FontSize, Num(p.fontSize(value)))
    case FontWeightKey => Weight(value)
    case CursorStyleKey => Write(CursorStyle, Style(value))
    case MiddleClick => Write(MiddleClickPaste, Paste(value))
    case _ => REJECTED
  }

  const PALETTE_SIZE := 16

  /** The slot and the colour of a valid palette entry. */
  function PaletteEntry(entry: string): (slot: Option<(nat, string)>)
    ensures slot.Some? ==> slot.value.0 < PALETTE_SIZE
  {
    var end := IndexOf(entry, '=');
    if end == |entry| then None
    else
      var index, colour := Unsigned(Trim(entry[..end])), ValidHex(Trim(entry[end + 1..]));
      if index.Some? && index.value < PALETTE_SIZE && colour.Some? then Some((index.value, colour.value)) else None
  }

  /** Entry by entry; later entries win. */
  function PaletteWrites(values: seq<string>): Settings {
    if values == [] then map[]
    else
      var before, entry := PaletteWrites(values[..|values| - 1]), PaletteEntry(values[|values| - 1]);
      if entry.Some? then before[Slot(entry.value.0) := Str(entry.value.1)] else before
  }

  /** What a key does. */
  function Effect(name: string, values: seq<string>, p: Platform): Outcome {
    var key, value := KeyOf(name), Trim(LastOf(values));
    if value == "" || key == SelectionWordChars then REJECTED
    else if key == Palette then Outcome(PaletteWrites(values) != map[], PaletteWrites(values), {})
    else Scalar(key, value, p)
  }

  // The mapping

  /** The settings after the keys of `order`, one by one. */
  function Fold(settings: Settings, parsed: Parsed, order: seq<string>, p: Platform): Settings {
    if order == [] then settings
    else
      var before, key := Fold(settings, parsed, order[..|order| - 1], p), order[|order| - 1];
      before + Effect(key, Get(parsed, key), p).writes
  }

  function AcceptedIn(parsed: Parsed, keys: set<string>, p: Platform): set<string> {
    set key | key in keys && Effect(key, Get(parsed, key), p).accepted
  }

  /** The rejected keys, and the notes about accepted ones. */
  function UnsupportedIn(parsed: Parsed, keys: set<string>, p: Platform): set<string> {
    (set key | key in keys && !Effect(key, Get(parsed, key), p).accepted)
    + (set key, note | key in keys && note in Effect(key, Get(parsed, key), p).notes :: note)
  }

  method ApplyPalette(settings: Settings, values: seq<string>) returns (changed: Settings, count: nat)
    ensures changed == settings + PaletteWrites(values)
    ensures count > 0 <==> PaletteWrites(values) != map[]
  {
    hide PaletteEntry;
    changed, count := settings, 0;
    for i := 0 to |values|
      invariant changed == settings + PaletteWrites(values[..i])
      invariant count > 0 <==> PaletteWrites(values[..i]) != map[]
    {
      var slot := PaletteEntry(values[i]);
      assert values[..i + 1][..i] == values[..i];
      if slot.None? { continue; }
      changed := changed[Slot(slot.value.0) := Str(slot.value.1)];
      count := count + 1;
      assert Slot(slot.value.0) in PaletteWrites(values[..i + 1]);
    }
    assert values[..|values|] == values;
  }

  method ApplyKey(settings: Settings, name: string, values: seq<string>, p: Platform)
    returns (changed: Settings, accepted: bool, notes: set<string>)
    ensures Outcome(accepted, changed, notes)
        == Effect(name, values, p).(writes := settings + Effect(name, values, p).writes)
  {
    hide Scalar, PaletteWrites, Trim, KeyOf, KeyName;
    var key, value := KeyOf(name), Trim(LastOf(values));
    changed, notes := settings, {};
    if value == "" || key == SelectionWordChars {
      accepted := false;
      assert settings + map[] == settings;
    } else if key == Palette {
      var count: nat;
      changed, count := ApplyPalette(settings, values);
      accepted := count > 0;
    } else {
      var outcome := Scalar(key, value, p);
      changed, accepted, notes := settings + outcome.writes, outcome.accepted, outcome.notes;
    }
  }

  lemma AcceptedOneMore(parsed: Parsed, keys: set<string>, key: string, p: Platform)
    ensures AcceptedIn(parsed, keys + {key}, p)
         == AcceptedIn(parsed, keys, p) + if Effect(key, Get(parsed, key), p).accepted then {key} else {}
  {
    hide Effect, Get;
  }

  lemma UnsupportedOneMore(parsed: Parsed, keys: set<string>, key: string, p: Platform)
    ensures UnsupportedIn(parsed, keys + {key}, p)
         == UnsupportedIn(parsed, keys, p) + Effect(key, Get(parsed, key), p).notes
            + if Effect(key, Get(parsed, key), p).accepted then {} else {key}
  {
    hide Effect, Get;
  }

  lemma FoldOneMore(settings: Settings, parsed: Parsed, order: seq<string>, i: nat, p: Platform)
    requires i < |order|
    ensures Fold(settings, parsed, order[..i + 1], p)
         == Fold(settings, parsed, order[..i], p) + Effect(order[i], Get(parsed, order[i]), p).writes
  {
    hide Effect, Get;
    assert order[..i + 1][..i] == order[..i];
  }

  method ApplyMapping(settings: Settings, parsed: Parsed, order: seq<string>, p: Platform)
    returns (changed: Settings, applied: seq<string>, unsupported: set<string>)
    requires Listing(order, parsed.Keys)
    ensures changed == Fold(settings, parsed, order, p)
    ensures ToSet(applied) == AcceptedIn(parsed, parsed.Keys, p)
    ensures forall i, j | 0 <= i < j < |applied| :: applied[i] != applied[j]
    ensures unsupported == UnsupportedIn(parsed, parsed.Keys, p)
  {
    hide Effect, Get, Fold, AcceptedIn, UnsupportedIn, Listing;
    changed, applied, unsupported := settings, [], {};
    Nothing(settings, parsed, p);
    for i := 0 to |order|
      invariant changed == Fold(settings, parsed, order[..i], p)
      invariant ToSet(applied) == AcceptedIn(parsed, ToSet(order[..i]), p)
      invariant forall i, j | 0 <= i < j < |applied| :: applied[i] != applied[j]
      invariant unsupported == UnsupportedIn(parsed, ToSet(order[..i]), p)
    {
      var key := order[i];
      NextKey(order, parsed.Keys, i);
      InSource(parsed, key);
      FoldOneMore(settings, parsed, order, i, p);
      AcceptedOneMore(parsed, ToSet(order[..i]), key, p);
      UnsupportedOneMore(parsed, ToSet(order[..i]), key, p);
      var accepted: bool, notes: set<string>;
      changed, accepted, notes := ApplyKey(changed, key, parsed[key], p);
      unsupported := unsupported + notes;
      if accepted {
        if key !in applied { applied := applied + [key]; }
      } else {
        unsupported := unsupported + {key};
      }
    }
    AllListed(order, parsed.Keys);
  }

  lemma Nothing(settings: Settings, parsed: Parsed, p: Platform)
    ensures Fold(settings, parsed, [], p) == settings
    ensures AcceptedIn(parsed, ToSet([]), p) == {} && UnsupportedIn(parsed, ToSet([]), p) == {}
  {
  }

  lemma AllListed(order: seq<string>, keys: set<string>)
    requires Listing(order, keys)
    ensures order[..|order|] == order && ToSet(order) == keys
  {
  }
}
