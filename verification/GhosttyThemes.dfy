/** What a theme gives to an import of settings, and which themes are not supported. */
module GhosttyThemes {
  import opened Text
  import opened GhosttyConfig
  import opened GhosttyImport

  // Pairs of themes

  /** `word` stands at `high`, and before it, from the beginning or from a comma, only blanks. */
  predicate Begins(text: string, word: string, low: nat, high: nat) {
    && low <= high && high + |word| <= |text| && (low == 0 || text[low - 1] == ',')
    && AllWhitespace(text[low..high]) && text[high..high + |word|] == word
  }

  predicate IsWord(word: string) {
    word != "" && forall c | c in word :: c != ',' && !IsWhitespace(c)
  }

  ghost predicate SomeBegins(text: string, word: string) {
    exists low: nat, high: nat :: Begins(text, word, low, high)
  }

  lemma TrimmedBeginsIff(text: string, word: string)
    requires IsWord(word)
    ensures StartsWith(Trim(text), word) <==> exists high: nat :: Begins(text, word, 0, high)
  {
    hide IsWhitespace, Trim;
    var low, high := TrimIsInner(text);
    if StartsWith(Trim(text), word) {
      assert text[low..low + |word|] == Trim(text)[..|word|];
      assert Begins(text, word, 0, low);
    }
    forall h: nat | Begins(text, word, 0, h) ensures StartsWith(Trim(text), word) {
      var last := h + |word| - 1;
      assert text[h] == word[0] && text[last] == word[|word| - 1];
      assert word[0] in word && word[|word| - 1] in word;
      assert forall i | 0 <= i < low :: text[i] == text[..low][i];
      assert forall i | high <= i < |text| :: text[i] == text[high..][i - high];
      assert forall i | 0 <= i < h :: text[i] == text[0..h][i];
      assert h == low && last < high;
      assert Trim(text)[..|word|] == text[h..h + |word|];
    }
  }

  ghost predicate SomePart(parts: seq<string>, word: string) {
    exists i | 0 <= i < |parts| :: StartsWith(Trim(parts[i]), word)
  }

  lemma SomePartCons(first: string, rest: seq<string>, word: string)
    ensures SomePart([first] + rest, word) <==> StartsWith(Trim(first), word) || SomePart(rest, word)
  {
    hide Trim, StartsWith;
    var all := [first] + rest;
    assert all[0] == first && forall i | 0 <= i < |rest| :: all[i + 1] == rest[i];
    assert forall i | 0 < i < |all| :: all[i] == rest[i - 1];
  }

  /** Neither blanks nor the word hold a comma, so what begins before one ends before it. */
  lemma EndsBeforeComma(text: string, word: string, at: nat, low: nat, high: nat)
    requires IsWord(word) && at < |text| && text[at] == ',' && Begins(text, word, low, high) && low <= at
    ensures high + |word| <= at
  {
    assert forall i | low <= i < high :: text[i] == text[low..high][i - low];
    assert forall i | high <= i < high + |word| :: text[i] == word[i - high] && word[i - high] in word;
  }

  lemma BeginsWithin(text: string, word: string, at: nat, high: nat)
    requires IsWord(word) && at < |text| && text[at] == ','
    ensures Begins(text, word, 0, high) <==> Begins(text[..at], word, 0, high)
  {
    var a := text[..at];
    if Begins(text, word, 0, high) {
      EndsBeforeComma(text, word, at, 0, high);
    }
    if high + |word| <= at {
      assert a[0..high] == text[0..high] && a[high..high + |word|] == text[high..high + |word|];
    }
  }

  lemma BeginsBehind(text: string, word: string, at: nat, low: nat, high: nat)
    requires at < |text| && text[at] == ','
    ensures Begins(text, word, low + at + 1, high + at + 1) <==> Begins(text[at + 1..], word, low, high)
  {
    var (b, n) := (text[at + 1..], at + 1);
    if low <= high && high + |word| <= |b| {
      assert b[low..high] == text[low + n..high + n];
      assert b[high..high + |word|] == text[high + n..high + n + |word|];
      assert low > 0 ==> b[low - 1] == text[low + n - 1];
    }
  }

  lemma BeginsAround(text: string, word: string, at: nat)
    requires IsWord(word) && at < |text| && text[at] == ',' && forall i | 0 <= i < at :: text[i] != ','
    ensures SomeBegins(text, word)
       <==> (exists high: nat :: Begins(text[..at], word, 0, high)) || SomeBegins(text[at + 1..], word)
  {
    forall low: nat, high: nat | Begins(text, word, low, high)
      ensures (low == 0 && Begins(text[..at], word, 0, high))
           || (low > at && high > at && Begins(text[at + 1..], word, low - at - 1, high - at - 1))
    {
      if low > at {
        BeginsBehind(text, word, at, low - at - 1, high - at - 1);
      } else {
        BeginsWithin(text, word, at, high);
      }
    }
    forall high: nat | Begins(text[..at], word, 0, high) ensures Begins(text, word, 0, high) {
      BeginsWithin(text, word, at, high);
    }
    if SomeBegins(text[at + 1..], word) {
      var l: nat, h: nat :| Begins(text[at + 1..], word, l, h);
      BeginsBehind(text, word, at, l, h);
    }
  }

  lemma {:induction false} SomePartIff(text: string, word: string)
    requires IsWord(word)
    ensures SomePart(Split(text, ","), word) <==> SomeBegins(text, word)
    decreases |text|
  {
    hide Begins, StartsWith, Trim, IsWhitespace, Find, Split;
    FindIsLeftmost(text, ",", 0);
    SplitStep(text, ",");
    match Find(text, ",", 0)
    case None =>
      NoComma(text);
      OnlyFromTheStart(text, word);
      SomePartCons(text, [], word);
      TrimmedBeginsIff(text, word);
    case Some(at) =>
      FirstComma(text, at);
      SomePartIff(text[at + 1..], word);
      SomePartCons(text[..at], Split(text[at + 1..], ","), word);
      TrimmedBeginsIff(text[..at], word);
      BeginsAround(text, word, at);
  }

  lemma NoComma(text: string)
    requires Find(text, ",", 0).None?
    ensures forall i | 0 <= i < |text| :: text[i] != ','
  {
    hide Find;
    FindIsLeftmost(text, ",", 0);
    forall i | 0 <= i < |text| ensures text[i] != ',' {
      assert text[i..i + 1] == "," <==> text[i] == ',';
      assert !OccursAt(text, ",", i);
    }
  }

  lemma FirstComma(text: string, at: nat)
    requires Find(text, ",", 0) == Some(at)
    ensures at < |text| && text[at] == ',' && forall i | 0 <= i < at :: text[i] != ','
  {
    hide Find;
    FindIsLeftmost(text, ",", 0);
    assert text[at] == text[at..at + 1][0];
    assert forall i | 0 <= i < |text| && text[i] == ',' :: text[i..i + 1] == "," && OccursAt(text, ",", i);
  }

  lemma OnlyFromTheStart(text: string, word: string)
    requires forall i | 0 <= i < |text| :: text[i] != ','
    ensures SomeBegins(text, word) <==> exists high: nat :: Begins(text, word, 0, high)
  {
  }

  /** A theme's name is a pair, for light and for dark, exactly when one of these words stands at its beginning or
      after a comma, blanks apart. */
  lemma PairIff(theme: string)
    ensures IsPair(theme) <==> SomeBegins(theme, "light:") || SomeBegins(theme, "dark:")
  {
    hide StartsWith, Trim, Split;
    SomePartIff(theme, "light:");
    SomePartIff(theme, "dark:");
    var parts := Split(theme, ",");
    assert IsPair(theme) <==> SomePart(parts, "light:") || SomePart(parts, "dark:");
  }

  // Layers

  /** The keys that a theme may set. */
  predicate IsColourKey(key: string) {
    key in {"background", "foreground", "cursor-color", "cursor-text", "selection-background", "selection-foreground",
            "bold-color", "split-divider-color"}
  }

  /** `themed` is the configuration with a theme below it: the theme's palette entries come first, and of its other
      colours those count that the configuration does not set. */
  ghost predicate LiesBelow(themed: Parsed, theme: Parsed, parsed: Parsed) {
    && Get(themed, "palette") == Get(theme, "palette") + Get(parsed, "palette")
    && ("palette" in themed <==> "palette" in theme || "palette" in parsed)
    && "theme" !in themed
    && forall key | key != "palette" && key != "theme" ::
         && (key in parsed ==> key in themed && themed[key] == parsed[key])
         && (key !in parsed && IsColourKey(key) && key in theme ==> key in themed && themed[key] == theme[key])
         && (key !in parsed && !(IsColourKey(key) && key in theme) ==> key !in themed)
  }

  /** The last theme named counts. A pair, or a theme that is not found, is noted and gives nothing. */
  lemma ThemeTells(parsed: Parsed, themes: Themes)
    ensures var (themed, notes) := Themed(parsed, themes);
      if "theme" !in parsed then themed == parsed && notes == {}
      else
        var name := Trim(LastOf(parsed["theme"]));
        if SomeBegins(name, "light:") || SomeBegins(name, "dark:") then
          themed == parsed - {"theme"} && notes == {"theme (light:/dark: pairs not supported)"}
        else match themes(name)
          case None => themed == parsed - {"theme"} && notes == {"theme (theme file not found)"}
          case Some(contents) => LiesBelow(themed, ParseFile(contents), parsed) && notes == {}
  {
    hide IsPair, Trim, ParseFile, SomeBegins;
    if "theme" in parsed {
      PairIff(Trim(LastOf(parsed["theme"])));
    }
  }
}
