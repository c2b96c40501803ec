/** Which entry a palette slot ends as, and when the palette is dropped. */
module GhosttyPalette {
  import opened Text
  import opened GhosttyConfig
  import opened GhosttyMapping
  import opened GhosttyImport

  /** The colour of the last valid entry for a slot. */
  function LastValid(values: seq<string>, slot: nat): Option<string> {
    if values == [] then None
    else
      var entry := PaletteEntry(values[|values| - 1]);
      if entry.Some? && entry.value.0 == slot then Some(entry.value.1) else LastValid(values[..|values| - 1], slot)
  }

  /** It is the last valid entry: some entry says it, and no later entry says another. */
  lemma {:induction false} LastValidIsLast(values: seq<string>, slot: nat)
    ensures match LastValid(values, slot)
      case None =>
        forall i | 0 <= i < |values| :: PaletteEntry(values[i]).Some? ==> PaletteEntry(values[i]).value.0 != slot
      case Some(colour) => exists i | 0 <= i < |values| :: (
        && PaletteEntry(values[i]) == Some((slot, colour))
        && forall j | i < j < |values| :: PaletteEntry(values[j]).Some? ==> PaletteEntry(values[j]).value.0 != slot)
  {
    hide PaletteEntry;
    if values != [] {
      var before, last := values[..|values| - 1], PaletteEntry(values[|values| - 1]);
      if last.Some? && last.value.0 == slot {
        assert PaletteEntry(values[|values| - 1]) == Some((slot, last.value.1));
      } else {
        LastValidIsLast(before, slot);
        if LastValid(before, slot).Some? {
          var colour := LastValid(before, slot).value;
          var i :| 0 <= i < |before| && PaletteEntry(before[i]) == Some((slot, colour))
            && forall j | i < j < |before| :: PaletteEntry(before[j]).Some? ==> PaletteEntry(before[j]).value.0 != slot;
          assert PaletteEntry(values[i]) == Some((slot, colour));
        }
      }
    }
  }

  lemma {:induction false} LastValidConcat(a: seq<string>, b: seq<string>, slot: nat)
    ensures LastValid(a + b, slot) == if LastValid(b, slot).Some? then LastValid(b, slot) else LastValid(a, slot)
    decreases |b|
  {
    hide PaletteEntry;
    if b == [] {
      assert a + b == a;
    } else {
      assert (a + b)[..|a + b| - 1] == a + b[..|b| - 1];
      LastValidConcat(a, b[..|b| - 1], slot);
    }
  }

  function AsValue(colour: Option<string>): Option<Value> {
    if colour.Some? then Some(Str(colour.value)) else None
  }

  lemma {:induction false} SlotWrites(values: seq<string>, slot: nat)
    ensures Lookup(PaletteWrites(values), Slot(slot)) == AsValue(LastValid(values, slot))
  {
    hide PaletteEntry;
    if values != [] {
      SlotWrites(values[..|values| - 1], slot);
    }
  }

  /** All palette entries, the theme's first. */
  function PaletteOf(theme: Parsed, config: Parsed): seq<string> {
    Get(theme, "palette") + Get(config, "palette")
  }

  /** The palette is read at all unless its very last entry is blank. */
  predicate PaletteRead(theme: Parsed, config: Parsed) {
    Trim(LastOf(PaletteOf(theme, config))) != ""
  }

  /** The last valid entry of the configuration, else of the theme, else the old colour. */
  function Promised(settings: Settings, theme: Parsed, config: Parsed, slot: nat): Option<Value> {
    if LastValid(Get(config, "palette"), slot).Some? then AsValue(LastValid(Get(config, "palette"), slot))
    else if LastValid(Get(theme, "palette"), slot).Some? then AsValue(LastValid(Get(theme, "palette"), slot))
    else Lookup(settings, Slot(slot))
  }

  lemma SlotOwner(slot: nat)
    ensures KeyName(Owner(Slot(slot))) == "palette"
    ensures KeyOf("palette") == Palette
  {
  }

  /** What a slot ends as. */
  lemma SlotEndsAs(settings: Settings, theme: Parsed, config: Parsed, p: Platform, slot: nat)
    ensures Expected(settings, Merge(theme, config), p, Slot(slot)) ==
      if PaletteRead(theme, config) then Promised(settings, theme, config, slot) else Lookup(settings, Slot(slot))
  {
    var merged, all := Merge(theme, config), PaletteOf(theme, config);
    MergedKey(theme, config, "palette");
    SlotOwner(slot);
    LastValidConcat(Get(theme, "palette"), Get(config, "palette"), slot);
    SlotWrites(all, slot);
    hide Merge, PaletteWrites, LastValid, KeyOf, KeyName, Owner, Trim, Scalar;
    assert Get(merged, "palette") == all;
    TrimNone();
    if PaletteRead(theme, config) {
      assert all != [];
      assert "palette" in merged;
      assert Effect("palette", merged["palette"], p).writes == PaletteWrites(all);
    }
  }

  lemma TrimNone()
    ensures Trim("") == "" && LastOf([]) == ""
  {
  }

  /** Every slot ends as promised, whatever the old colours, exactly when the last entry is not blank or no
      entry is valid: a blank last entry drops the whole palette. */
  lemma SlotsAsPromisedIff(theme: Parsed, config: Parsed, p: Platform)
    ensures (forall settings: Settings, slot: nat ::
               Expected(settings, Merge(theme, config), p, Slot(slot)) == Promised(settings, theme, config, slot))
       <==> PaletteRead(theme, config) || forall slot: nat :: LastValid(PaletteOf(theme, config), slot) == None
  {
    hide Merge, Expected, PaletteRead, LastValid;
    if PaletteRead(theme, config) || forall slot: nat :: LastValid(PaletteOf(theme, config), slot) == None {
      forall settings: Settings, slot: nat
        ensures Expected(settings, Merge(theme, config), p, Slot(slot)) == Promised(settings, theme, config, slot)
      {
        SlotEndsAs(settings, theme, config, p, slot);
        LastValidConcat(Get(theme, "palette"), Get(config, "palette"), slot);
        assert PaletteRead(theme, config) || LastValid(PaletteOf(theme, config), slot) == None;
      }
    } else {
      var slot: nat :| LastValid(PaletteOf(theme, config), slot) != None;
      SlotEndsAs(map[], theme, config, p, slot);
      LastValidConcat(Get(theme, "palette"), Get(config, "palette"), slot);
    }
  }

  /** A line without a value loses every palette entry before it. */
  lemma BlankEntryDropsThePalette(entries: seq<string>, slot: nat, p: Platform)
    ensures LastValid(entries + [""], slot) == LastValid(entries, slot)
    ensures Expected(map[], Merge(map[], map["palette" := entries + [""]]), p, Slot(slot)) == None
  {
    BlankIsInvalid(slot);
    LastValidConcat(entries, [""], slot);
    TrimNone();
    hide LastValid, Merge, Expected, Trim, PaletteEntry, Promised;
    var values := entries + [""];
    var config: Parsed := map["palette" := values];
    assert PaletteOf(map[], config) == values;
    SlotEndsAs(map[], map[], config, p, slot);
  }

  lemma BlankIsInvalid(slot: nat)
    ensures LastValid([""], slot) == None
  {
    IndexOfNone("", '=');
    assert PaletteEntry("") == None;
    hide PaletteEntry;
    assert [""][..0] == [];
  }
}
