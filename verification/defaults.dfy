/** The seed tables of the emulator package: the emulators and RetroArch
    cores written to the store at start-up, and the default emulator (or
    emulator/core pair) of each platform. */
module Defaults {
  import opened Models
  import opened Text
  import opened Seqs

  /** A platform's default: an emulator and, for RetroArch, a core ("" for a
      standalone emulator). */
  datatype DefaultConfig = DefaultConfig(emulatorID: string, coreID: string)

  const RetroArch: string := "retroarch"

  const DefaultEmulatorsByPlatform: map<string, DefaultConfig> := map[
    "nes" := DefaultConfig(RetroArch, "mesen_libretro"),
    "snes" := DefaultConfig(RetroArch, "snes9x_libretro"),
    "wii" := DefaultConfig("dolphin", "")
  ]

  // Command-template placeholders.
  const FlatpakIDSlot: string := "{flatpak_id}"
  const CoreLibSlot: string := "{core_lib_path}"
  const ArgsSlot: string := "{args}"
  const RomSlot: string := "{rom}"
  const ExecutableSlot: string := "{executable}"

  /** "flatpak run {flatpak_id} -L {core_lib_path} {args} {rom}" */
  const RetroArchTemplate: string :=
    "flatpak run " + FlatpakIDSlot + " -L " + CoreLibSlot + " " + ArgsSlot + " " + RomSlot
  /** "flatpak run {flatpak_id} {args} {rom}" */
  const FlatpakTemplate: string :=
    "flatpak run " + FlatpakIDSlot + " " + ArgsSlot + " " + RomSlot

  const DefaultEmulators: seq<Emulator> := [
    Emulator(RetroArch, RetroArch, "RetroArch", Flatpak, "", "org.libretro.RetroArch",
             RetroArchTemplate, "--fullscreen", [], false),
    Emulator("nestopia", "nestopia", "Nestopia UE", Flatpak, "", "ca._0ldsk00l.Nestopia",
             FlatpakTemplate, "--fullscreen", ["nes"], false),
    Emulator("dolphin", "dolphin", "Dolphin", Flatpak, "", "org.DolphinEmu.dolphin-emu",
             FlatpakTemplate, "-b -e", ["wii", "gamecube"], false)
  ]

  const DefaultCores: seq<EmulatorCore> := [
    EmulatorCore("retroarch_mesen", RetroArch, "mesen_libretro", "Mesen", ["nes"], false),
    EmulatorCore("retroarch_nestopia", RetroArch, "nestopia_libretro", "Nestopia", ["nes"], false),
    EmulatorCore("retroarch_snes9x", RetroArch, "snes9x_libretro", "Snes9x", ["snes"], false),
    EmulatorCore("retroarch_bsnes", RetroArch, "bsnes_libretro", "bsnes", ["snes"], false)
  ]

  /** Every platform default names a seeded emulator. */
  lemma DefaultsNameSeededEmulators()
    ensures forall p :: p in DefaultEmulatorsByPlatform ==>
      exists i :: 0 <= i < |DefaultEmulators| && DefaultEmulators[i].id == DefaultEmulatorsByPlatform[p].emulatorID
  {
    forall p | p in DefaultEmulatorsByPlatform
      ensures exists i :: 0 <= i < |DefaultEmulators| && DefaultEmulators[i].id == DefaultEmulatorsByPlatform[p].emulatorID
    {
      if p == "wii" {
        assert DefaultEmulators[2].id == "dolphin";
      } else {
        assert DefaultEmulators[0].id == RetroArch;
      }
    }
  }

  /** `c` is a core of the emulator `d` names, with `d`'s core id, and it
      supports platform `p`. */
  predicate CoreServes(c: EmulatorCore, d: DefaultConfig, p: string) {
    c.coreID == d.coreID && c.emulatorID == d.emulatorID && p in c.supportedPlatforms
  }

  /** Every default that names a core names a seeded core of the same
      emulator that supports the platform. */
  lemma DefaultCoresSupportPlatform()
    ensures forall p :: p in DefaultEmulatorsByPlatform && DefaultEmulatorsByPlatform[p].coreID != "" ==>
      exists k :: 0 <= k < |DefaultCores| && CoreServes(DefaultCores[k], DefaultEmulatorsByPlatform[p], p)
  {
    forall p | p in DefaultEmulatorsByPlatform && DefaultEmulatorsByPlatform[p].coreID != ""
      ensures exists k :: 0 <= k < |DefaultCores| && CoreServes(DefaultCores[k], DefaultEmulatorsByPlatform[p], p)
    {
      if p == "nes" {
        assert DefaultCores[0].supportedPlatforms[0] == p;
        assert CoreServes(DefaultCores[0], DefaultEmulatorsByPlatform[p], p);
      } else {
        assert p == "snes";
        assert DefaultCores[2].supportedPlatforms[0] == p;
        assert CoreServes(DefaultCores[2], DefaultEmulatorsByPlatform[p], p);
      }
    }
  }

  /** Emulator ids and core ids are pairwise distinct, every core belongs to
      RetroArch, and RetroArch itself declares no platforms. */
  lemma DefaultTablesWellFormed()
    ensures UniqueKeys(DefaultEmulators, (e: Emulator) => e.id)
    ensures UniqueKeys(DefaultCores, (c: EmulatorCore) => c.id)
    ensures forall k :: 0 <= k < |DefaultCores| ==> DefaultCores[k].emulatorID == RetroArch
    ensures forall i :: 0 <= i < |DefaultEmulators| && DefaultEmulators[i].id == RetroArch ==>
      DefaultEmulators[i].supportedPlatforms == []
  {
  }

  lemma RetroArchTemplateSlots()
    ensures Contains(RetroArchTemplate, FlatpakIDSlot) && Contains(RetroArchTemplate, RomSlot)
  {
    var s1 := "flatpak run " + FlatpakIDSlot;
    ContainsEnd("flatpak run ", FlatpakIDSlot);
    ContainsExtend(s1, " -L ", FlatpakIDSlot);
    ContainsExtend(s1 + " -L ", CoreLibSlot, FlatpakIDSlot);
    ContainsExtend(s1 + " -L " + CoreLibSlot, " ", FlatpakIDSlot);
    ContainsExtend(s1 + " -L " + CoreLibSlot + " ", ArgsSlot, FlatpakIDSlot);
    ContainsExtend(s1 + " -L " + CoreLibSlot + " " + ArgsSlot, " ", FlatpakIDSlot);
    ContainsExtend(s1 + " -L " + CoreLibSlot + " " + ArgsSlot + " ", RomSlot, FlatpakIDSlot);
    ContainsEnd(s1 + " -L " + CoreLibSlot + " " + ArgsSlot + " ", RomSlot);
  }

  lemma FlatpakTemplateSlots()
    ensures Contains(FlatpakTemplate, FlatpakIDSlot) && Contains(FlatpakTemplate, RomSlot)
  {
    var s1 := "flatpak run " + FlatpakIDSlot;
    ContainsEnd("flatpak run ", FlatpakIDSlot);
    ContainsExtend(s1, " ", FlatpakIDSlot);
    ContainsExtend(s1 + " ", ArgsSlot, FlatpakIDSlot);
    ContainsExtend(s1 + " " + ArgsSlot, " ", FlatpakIDSlot);
    ContainsExtend(s1 + " " + ArgsSlot + " ", RomSlot, FlatpakIDSlot);
    ContainsEnd(s1 + " " + ArgsSlot + " ", RomSlot);
  }

  /** Every seeded command template has the flatpak-id and ROM placeholders. */
  lemma DefaultTemplatesHavePlaceholders()
    ensures forall i :: 0 <= i < |DefaultEmulators| ==>
      Contains(DefaultEmulators[i].commandTemplate, FlatpakIDSlot) &&
      Contains(DefaultEmulators[i].commandTemplate, RomSlot)
  {
    RetroArchTemplateSlots();
    FlatpakTemplateSlots();
  }

}
