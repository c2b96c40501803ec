/** The import as a whole: it depends on no iteration order, and merging files is as good as concatenating them. */
module GhosttyImport {
  import opened Text
  import opened GhosttyConfig
  import opened GhosttyMapping

  // Who writes what

  /** The one key that writes a field. */
  function Owner(field: Field): Key {
    match field
    case Slot(_) => Palette
    case Background => BackgroundKey
    case Foreground => ForegroundKey
    case Cursor => CursorColour
    case CursorAccent => CursorText
    case SelectionBackground => SelectionBackgroundKey
    case SelectionForeground => SelectionForegroundKey
    case Bold => BoldColour
    case MacOptionAsAlt => MacOptionKey
    case BackgroundOpacity => OpacityKey
    case WindowBlur => BlurRadius
    case DividerDark => SplitDivider
    case DividerLight => SplitDivider
    case CursorOpacity => CursorOpacityKey
    case InactivePaneOpacity => UnfocusedSplit
    case PaddingX => WindowPaddingX
    case PaddingY => WindowPaddingY
    case LineHeight => CellHeightKey
    case MouseHide => MouseHideKey
    case CursorBlink => CursorBlinkKey
    case FocusFollowsMouse => FocusFollows
    case FontFamily => FontFamilyKey
    case FontSize => FontSizeKey
    case FontWeight => FontWeightKey
    case CursorStyle => CursorStyleKey
    case MiddleClickPaste => MiddleClick
  }

  lemma {:induction false} PaletteOwned(values: seq<string>, field: Field)
    requires field in PaletteWrites(values)
    ensures Owner(field) == Palette
  {
    hide PaletteEntry;
    if field in PaletteWrites(values[..|values| - 1]) {
      PaletteOwned(values[..|values| - 1], field);
    }
  }

  predicate SetsColour(key: Key) {
    || key.BackgroundKey? || key.ForegroundKey? || key.CursorColour? || key.CursorText? || key.SelectionBackgroundKey?
    || key.SelectionForegroundKey? || key.BoldColour? || key.SplitDivider?
  }

  lemma ColourOwned(key: Key, value: string, p: Platform, field: Field)
    requires SetsColour(key) && field in Scalar(key, value, p).writes
    ensures Owner(field) == key
  {
    hide Colour, Divider;
  }

  lemma ScalarOwned(key: Key, value: string, p: Platform, field: Field)
    requires field in Scalar(key, value, p).writes
    ensures Owner(field) == key
  {
    hide Write, Colour, MacOption, Blur, Divider, CellHeight, Weight, Padding, Switch, Style, Paste, Num;
    if SetsColour(key) {
      ColourOwned(key, value, p, field);
    }
  }

  lemma WritesOwned(name: string, values: seq<string>, p: Platform, field: Field)
    requires field in Effect(name, values, p).writes
    ensures name == KeyName(Owner(field))
  {
    hide Scalar, PaletteWrites, Owner, Trim, KeyName;
    if KeyOf(name) == Palette {
      PaletteOwned(values, field);
    } else {
      ScalarOwned(KeyOf(name), Trim(LastOf(values)), p, field);
    }
  }

  lemma ScalarRejected(key: Key, value: string, p: Platform)
    requires !Scalar(key, value, p).accepted
    ensures Scalar(key, value, p).writes ==
            if key == MacOptionKey && p.mac then map[MacOptionAsAlt := Str("")] else map[]
    ensures key == MacOptionKey && p.mac ==> value !in {"true", "on", "false", "off", "left", "right"}
  {
    hide ValidHex, DecimalInteger, Unsigned, Padding, Switch, Style, Paste;
  }

  /** A rejected key writes nothing, except that an unknown value of `macos-option-as-alt` blanks the setting. */
  lemma RejectedWrites(name: string, values: seq<string>, p: Platform)
    requires !Effect(name, values, p).accepted
    ensures var value := Trim(LastOf(values));
            Effect(name, values, p).writes ==
              if name == "macos-option-as-alt" && p.mac && value != "" then map[MacOptionAsAlt := Str("")] else map[]
    ensures name == "macos-option-as-alt" && p.mac ==>
            Trim(LastOf(values)) !in {"true", "on", "false", "off", "left", "right"}
  {
    hide Scalar, Trim;
    var value := Trim(LastOf(values));
    if value != "" && KeyOf(name) != SelectionWordChars && KeyOf(name) != Palette {
      ScalarRejected(KeyOf(name), value, p);
    }
    assert KeyOf(name) == MacOptionKey <==> name == "macos-option-as-alt";
  }

  // Iteration order

  function Lookup(settings: Settings, field: Field): Option<Value> {
    if field in settings then Some(settings[field]) else None
  }

  /** What a field ends as, told by its owner alone. */
  function Expected(settings: Settings, parsed: Parsed, p: Platform, field: Field): Option<Value> {
    var name := KeyName(Owner(field));
    if name !in parsed then Lookup(settings, field)
    else
      var writes := Effect(name, parsed[name], p).writes;
      if field in writes then Some(writes[field]) else Lookup(settings, field)
  }

  ghost predicate IsImported(changed: Settings, settings: Settings, parsed: Parsed, p: Platform) {
    forall field: Field :: Lookup(changed, field) == Expected(settings, parsed, p, field)
  }

  lemma WritesLookup(settings: Settings, writes: Settings, field: Field)
    ensures Lookup(settings + writes, field) == if field in writes then Some(writes[field]) else Lookup(settings, field)
  {
  }

  lemma {:induction false} FoldLookup(settings: Settings, parsed: Parsed, order: seq<string>, p: Platform, i: nat,
          field: Field)
    requires Listing(order, parsed.Keys) && i <= |order|
    ensures Lookup(Fold(settings, parsed, order[..i], p), field) ==
      if KeyName(Owner(field)) in order[..i] then Expected(settings, parsed, p, field) else Lookup(settings, field)
    decreases i
  {
    hide Effect, Fold, Lookup, Owner, KeyName, Listing;
    if i == 0 {
      Nothing(settings, parsed, p);
    } else {
      FoldOneMore(settings, parsed, order, i - 1, p);
      FoldLookup(settings, parsed, order, p, i - 1, field);
      NextKey(order, parsed.Keys, i - 1);
      InSource(parsed, order[i - 1]);
      var writes := Effect(order[i - 1], parsed[order[i - 1]], p).writes;
      WritesLookup(Fold(settings, parsed, order[..i - 1], p), writes, field);
      if field in writes {
        WritesOwned(order[i - 1], parsed[order[i - 1]], p, field);
      }
      assert order[..i] == order[..i - 1] + [order[i - 1]];
    }
  }

  lemma FoldIsImported(settings: Settings, parsed: Parsed, order: seq<string>, p: Platform)
    requires Listing(order, parsed.Keys)
    ensures IsImported(Fold(settings, parsed, order, p), settings, parsed, p)
  {
    hide Fold, Effect, Owner, KeyName;
    AllListed(order, parsed.Keys);
    forall field: Field
      ensures Lookup(Fold(settings, parsed, order, p), field) == Expected(settings, parsed, p, field)
    {
      FoldLookup(settings, parsed, order, p, |order|, field);
    }
  }

  /** The settings do not depend on the order in which the keys come. */
  lemma OrderDoesNotMatter(settings: Settings, parsed: Parsed, p: Platform, order: seq<string>, other: seq<string>)
    requires Listing(order, parsed.Keys) && Listing(other, parsed.Keys)
    ensures Fold(settings, parsed, order, p) == Fold(settings, parsed, other, p)
  {
    FoldIsImported(settings, parsed, order, p);
    FoldIsImported(settings, parsed, other, p);
    SameSettings(Fold(settings, parsed, order, p), Fold(settings, parsed, other, p), settings, parsed, p);
  }

  lemma SameSettings(a: Settings, b: Settings, settings: Settings, parsed: Parsed, p: Platform)
    requires IsImported(a, settings, parsed, p) && IsImported(b, settings, parsed, p)
    ensures a == b
  {
    hide Expected;
    forall field: Field
      ensures field in a <==> field in b
      ensures field in a ==> a[field] == b[field]
    {
      assert Lookup(a, field) == Expected(settings, parsed, p, field) == Lookup(b, field);
    }
  }

  /** Some iteration order of a hash map's keys; nothing is known about which. */
  method IterationOrder(keys: set<string>) returns (order: seq<string>)
    ensures Listing(order, keys)
  {
    var rest := keys;
    order := [];
    while rest != {}
      invariant rest <= keys && Listing(order, keys - rest)
      decreases rest
    {
      var key :| key in rest;
      order, rest := order + [key], rest - {key};
    }
    assert keys - {} == keys;
  }

  // The import

  const THEME_KEYS := {"palette", "background", "foreground", "cursor-color", "cursor-text", "selection-background",
                       "selection-foreground", "bold-color", "split-divider-color"}
  const PAIR_NOTE := "theme (light:/dark: pairs not supported)"
  const MISSING_NOTE := "theme (theme file not found)"

  /** The contents of the file of a theme, if there is one. */
  type Themes = string -> Option<string>

  function ThemeColours(parsed: Parsed): Parsed {
    map key | key in parsed.Keys && key in THEME_KEYS :: parsed[key]
  }

  predicate StartsWith(text: string, prefix: string) {
    |prefix| <= |text| && text[..|prefix|] == prefix
  }

  predicate IsPair(theme: string) {
    exists i | 0 <= i < |Split(theme, ",")| ::
      StartsWith(Trim(Split(theme, ",")[i]), "light:") || StartsWith(Trim(Split(theme, ",")[i]), "dark:")
  }

  /** The configuration over its theme's colours, and what is to be noted about the theme. */
  function Themed(parsed: Parsed, themes: Themes): (Parsed, set<string>) {
    if "theme" !in parsed then (parsed, {})
    else
      var theme, rest := Trim(LastOf(parsed["theme"])), parsed - {"theme"};
      if IsPair(theme) then (rest, {PAIR_NOTE})
      else match themes(theme)
        case None => (rest, {MISSING_NOTE})
        case Some(contents) => (Merge(ThemeColours(ParseFile(contents)), rest), {})
  }

  datatype Report = Report(settings: Settings, applied: set<string>, unsupported: set<string>)

  /** A report of this configuration, whatever the iteration orders. */
  ghost predicate Reports(report: Report, current: Settings, parsed: Parsed, themes: Themes, p: Platform) {
    var (themed, notes) := Themed(parsed, themes);
    && IsImported(report.settings, current, themed, p)
    && report.applied == AcceptedIn(themed, themed.Keys, p)
    && report.unsupported == UnsupportedIn(themed, themed.Keys, p) + notes
  }

  /** `layered` after the keys of `done`. */
  predicate LayeredSoFar(colours: Parsed, parsed: Parsed, done: set<string>, layered: Parsed) {
    && layered.Keys == parsed.Keys + done
    && forall key | key in layered ::
         layered[key] == if key in done then MergedValue(colours, parsed, key) else parsed[key]
  }

  lemma LayerOneMore(colours: Parsed, parsed: Parsed, done: set<string>, layered: Parsed, key: string)
    requires LayeredSoFar(colours, parsed, done, layered) && key in colours && key !in done
    ensures LayeredSoFar(colours, parsed, done + {key}, layered[key := MergedValue(colours, parsed, key)])
    ensures Get(layered, key) == Get(parsed, key)
    ensures key != "palette" ==>
      MergedValue(colours, parsed, key) == if key in layered then layered[key] else colours[key]
    ensures key in layered ==> layered[key := layered[key]] == layered
  {
  }

  lemma LayeredAll(colours: Parsed, parsed: Parsed, layered: Parsed)
    requires LayeredSoFar(colours, parsed, colours.Keys, layered)
    ensures layered == Merge(colours, parsed)
  {
    forall key | key in parsed && key !in colours ensures MergedValue(colours, parsed, key) == parsed[key] {
      if key == "palette" {
        assert [] + parsed[key] == parsed[key];
      }
    }
    hide MergedValue;
  }

  lemma NoneLayered(colours: Parsed, parsed: Parsed)
    ensures LayeredSoFar(colours, parsed, ToSet([]), parsed)
  {
  }

  /** The theme's palette goes before the configuration's; its other colours only where the configuration has none. */
  method LayerTheme(parsed: Parsed, colours: Parsed) returns (layered: Parsed)
    ensures layered == Merge(colours, parsed)
  {
    hide LayeredSoFar, Get, Merge, Listing;
    var order := IterationOrder(colours.Keys);
    layered := parsed;
    NoneLayered(colours, parsed);
    for i := 0 to |order|
      invariant LayeredSoFar(colours, parsed, ToSet(order[..i]), layered)
    {
      var key := order[i];
      NextKey(order, colours.Keys, i);
      LayerOneMore(colours, parsed, ToSet(order[..i]), layered, key);
      InSource(colours, key);
      if key == "palette" {
        layered := layered[key := colours[key] + Get(layered, key)];
      } else if key !in layered {
        layered := layered[key := colours[key]];
      }
    }
    AllListed(order, colours.Keys);
    LayeredAll(colours, parsed, layered);
  }

  method Import(current: Settings, files: seq<string>, themes: Themes, p: Platform) returns (report: Result<Report>)
    ensures files == [] ==> report == Err("No Ghostty config was found.")
    ensures files != [] ==> report.Ok? && Reports(report.value, current, MergeAll(files), themes, p)
  {
    if files == [] { return Err("No Ghostty config was found."); }
    hide IsImported, AcceptedIn, UnsupportedIn, Themed, Fold, Listing;
    var parsed := MergeFiles(files);
    var layered, notes := ApplyTheme(parsed, themes);
    var order := IterationOrder(layered.Keys);
    FoldIsImported(current, layered, order, p);
    var settings, applied, unsupported := ApplyMapping(current, layered, order, p);
    report := Ok(Report(settings, ToSet(applied), unsupported + notes));
  }

  method MergeFiles(files: seq<string>) returns (parsed: Parsed)
    ensures parsed == MergeAll(files)
  {
    hide ParseFile, Merge, Listing;
    parsed := map[];
    assert MergeAll([]) == map[];
    for i := 0 to |files|
      invariant parsed == MergeAll(files[..i])
    {
      var source := ParseConfig(files[i]);
      FileParsed(files[i]);
      var order := IterationOrder(source.Keys);
      parsed := MergeConfig(parsed, source, order);
      assert files[..i + 1][..i] == files[..i];
    }
    assert files[..|files|] == files;
  }

  lemma FileParsed(contents: string)
    ensures ParseFile(contents) == Parse(Entries(Lines(contents)))
  {
  }

  method ApplyTheme(parsed: Parsed, themes: Themes) returns (layered: Parsed, notes: set<string>)
    ensures (layered, notes) == Themed(parsed, themes)
  {
    hide ParseFile, Merge, IsPair, ThemeColours, Trim;
    layered, notes := parsed, {};
    if "theme" in parsed {
      var theme := Trim(LastOf(parsed["theme"]));
      layered := parsed - {"theme"};
      if IsPair(theme) { return layered, {PAIR_NOTE}; }
      var contents := themes(theme);
      if contents.None? { return layered, {MISSING_NOTE}; }
      var colours := ParseConfig(contents.value);
      FileParsed(contents.value);
      layered := LayerTheme(layered, ThemeColours(colours));
    }
  }

  // Concatenation

  lemma OutcomesAgree(a: Parsed, b: Parsed, key: string, p: Platform)
    requires Equivalent(a, b)
    ensures Effect(key, Get(a, key), p) == Effect(key, Get(b, key), p)
  {
    EquivalentAt(a, b, key);
    assert KeyOf(key) == Palette <==> key == "palette";
    hide Equivalent, KeyOf, Scalar, Trim, Get;
  }

  lemma ExpectedAgree(a: Parsed, b: Parsed, settings: Settings, p: Platform, field: Field)
    requires Equivalent(a, b)
    ensures Expected(settings, a, p, field) == Expected(settings, b, p, field)
  {
    OutcomesAgree(a, b, KeyName(Owner(field)), p);
    EquivalentAt(a, b, KeyName(Owner(field)));
    hide Effect, Owner, KeyName, Equivalent;
  }

  lemma ListsAgree(a: Parsed, b: Parsed, p: Platform)
    requires Equivalent(a, b)
    ensures AcceptedIn(a, a.Keys, p) == AcceptedIn(b, b.Keys, p)
    ensures UnsupportedIn(a, a.Keys, p) == UnsupportedIn(b, b.Keys, p)
  {
    forall key: string ensures Effect(key, Get(a, key), p) == Effect(key, Get(b, key), p) {
      OutcomesAgree(a, b, key, p);
    }
    assert a.Keys == b.Keys;
    hide Effect, Get, Equivalent;
  }

  lemma ThemedAgree(a: Parsed, b: Parsed, themes: Themes)
    requires Equivalent(a, b)
    ensures Equivalent(Themed(a, themes).0, Themed(b, themes).0)
    ensures Themed(a, themes).1 == Themed(b, themes).1
  {
    hide Merge, IsPair, ThemeColours, ParseFile, Trim;
    if "theme" in a {
      var restA, restB := a - {"theme"}, b - {"theme"};
      assert Equivalent(restA, restB);
      assert LastOf(a["theme"]) == LastOf(b["theme"]);
      var contents := themes(Trim(LastOf(a["theme"])));
      if contents.Some? {
        MergesAgree(ThemeColours(ParseFile(contents.value)), restA, restB);
      }
    }
  }

  lemma MergesAgree(colours: Parsed, a: Parsed, b: Parsed)
    requires Equivalent(a, b)
    ensures Equivalent(Merge(colours, a), Merge(colours, b))
  {
    var (m, n) := (Merge(colours, a), Merge(colours, b));
    PaletteMerged(colours, a);
    PaletteMerged(colours, b);
    forall key: string
      ensures key in m <==> key in n
      ensures LastOf(Get(m, key)) == LastOf(Get(n, key))
    {
      EquivalentAt(a, b, key);
      MergedKey(colours, a, key);
      MergedKey(colours, b, key);
      hide Merge, Equivalent;
    }
    hide Merge, Equivalent, MergedValue;
    SameEverywhere(m, n);
  }

  /** Importing several files gives the same settings, the same applied and the same unsupported keys as
      importing one file made of all of them, in every iteration order. */
  lemma ImportIsConcatenated(current: Settings, files: seq<string>, themes: Themes, p: Platform, a: Report, b: Report)
    requires Reports(a, current, MergeAll(files), themes, p)
    requires Reports(b, current, MergeAll([Concat(files)]), themes, p)
    ensures a == b
  {
    hide Merge, Equivalent, IsImported, AcceptedIn, UnsupportedIn, Themed, ParseFile, Concat;
    MergingIsConcatenating(files);
    MergingIsConcatenating([Concat(files)]);
    OneConcat(Concat(files));
    EquivalentBoth(MergeAll(files), ParseFile(Concat(files)), MergeAll([Concat(files)]));
    ReportsAgree(current, MergeAll(files), MergeAll([Concat(files)]), themes, p, a, b);
  }

  lemma OneConcat(contents: string)
    ensures Concat([contents]) == contents
  {
    assert [contents][..0] == [];
    assert Concat([contents]) == Append(Concat([]), contents);
  }

  lemma EquivalentBoth(a: Parsed, b: Parsed, c: Parsed)
    requires Equivalent(a, b) && Equivalent(c, b)
    ensures Equivalent(a, c)
  {
  }

  lemma ReportsAgree(current: Settings, p: Parsed, q: Parsed, themes: Themes, platform: Platform, a: Report, b: Report)
    requires Equivalent(p, q)
    requires Reports(a, current, p, themes, platform) && Reports(b, current, q, themes, platform)
    ensures a == b
  {
    hide Equivalent, Themed, AcceptedIn, UnsupportedIn, Expected;
    ThemedAgree(p, q, themes);
    var s, t := Themed(p, themes).0, Themed(q, themes).0;
    ListsAgree(s, t, platform);
    forall field: Field ensures Expected(current, s, platform, field) == Expected(current, t, platform, field) {
      ExpectedAgree(s, t, current, platform, field);
    }
    SameSettings(a.settings, b.settings, current, s, platform);
  }
}
