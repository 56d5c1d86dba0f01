/** BuildCommand and its two template builders: the input guards, the
    RetroArch core-library path, argument combining, placeholder
    substitution, path quoting and tokenising. HOME is a parameter. */
module Command {
  import opened Wrappers
  import opened Models
  import opened Text
  import opened Defaults
  import opened Tokenizer
  import EmulatorService

  // ---------------------------------------------------------------------
  // Placeholder substitution

  /** A placeholder: a name between braces, with no brace inside. */
  predicate IsSlot(s: string) {
    |s| >= 2 && s[0] == '{' && s[|s| - 1] == '}' &&
    forall k :: 0 < k < |s| - 1 ==> s[k] != '{' && s[k] != '}'
  }

  predicate BraceFree(s: string) {
    '{' !in s
  }

  /** A template cut into brace-free text and whole placeholders. */
  predicate Segmented(segs: seq<string>) {
    forall k :: 0 <= k < |segs| ==> IsSlot(segs[k]) || BraceFree(segs[k])
  }

  function Concat(segs: seq<string>): string {
    if segs == [] then [] else segs[0] + Concat(segs[1..])
  }

  /** The value bound to a segment: the first binding for that placeholder,
      or the segment itself. */
  function Lookup(seg: string, binds: seq<(string, string)>): string {
    if binds == [] then seg
    else if seg == binds[0].0 then binds[0].1
    else Lookup(seg, binds[1..])
  }

  /** Every segment replaced by its bound value. */
  function Render(segs: seq<string>, binds: seq<(string, string)>): string {
    if segs == [] then [] else Lookup(segs[0], binds) + Render(segs[1..], binds)
  }

  /** strings.ReplaceAll once per binding, in order. */
  function Substitute(template: string, binds: seq<(string, string)>): string
    requires forall k :: 0 <= k < |binds| ==> IsSlot(binds[k].0)
    decreases |binds|
  {
    if binds == [] then template
    else
      assert IsSlot(binds[0].0);
      Substitute(ReplaceAll(template, binds[0].0, binds[0].1), binds[1..])
  }

  /** Placeholders bound to brace-free values. */
  predicate GoodBinds(binds: seq<(string, string)>) {
    forall k :: 0 <= k < |binds| ==> IsSlot(binds[k].0) && BraceFree(binds[k].1)
  }

  /** A different placeholder at the head of the text does not start with
      the pattern: one of the two closes its brace first. */
  lemma SlotNotPrefix(s0: string, b: string, pat: string)
    requires IsSlot(s0) && IsSlot(pat) && s0 != pat
    ensures |s0 + b| < |pat| || (s0 + b)[..|pat|] != pat
  {
    var x := s0 + b;
    var n, m := |s0|, |pat|;
    if |x| >= m {
      if m < n {
        assert x[..m][m - 1] == s0[m - 1];
      } else if m > n {
        assert x[..m][n - 1] == '}';
      } else {
        assert x[..m] == s0;
      }
    }
  }

  /** Only the first character of a placeholder is an opening brace. */
  lemma SlotTailBraceFree(s0: string)
    requires IsSlot(s0)
    ensures BraceFree(s0[1..])
  {
    assert forall k :: 0 <= k < |s0[1..]| ==> s0[1..][k] == s0[k + 1];
  }

  /** A placeholder other than the pattern, at the head of the text, is
      skipped whole. */
  lemma SlotMiss(s0: string, b: string, pat: string, rep: string)
    requires IsSlot(s0) && IsSlot(pat) && s0 != pat
    ensures ReplaceAll(s0 + b, pat, rep) == s0 + ReplaceAll(b, pat, rep)
  {
    SlotNotPrefix(s0, b, pat);
    assert s0 + b == [s0[0]] + (s0[1..] + b);
    ReplaceAllMiss(s0[0], s0[1..] + b, pat, rep);
    SlotTailBraceFree(s0);
    ReplaceAllSkip(s0[1..], b, pat, rep);
    assert [s0[0]] + s0[1..] == s0;
  }

  /** Replacing one placeholder in a segmented template fills exactly the
      segments that are that placeholder. */
  lemma {:induction false} ReplaceAllSegments(segs: seq<string>, pat: string, rep: string)
    requires IsSlot(pat) && Segmented(segs)
    ensures ReplaceAll(Concat(segs), pat, rep) == Render(segs, [(pat, rep)])
    decreases |segs|
  {
    if segs == [] {
      ReplaceAllShort([], pat, rep);
    } else {
      var s0 := segs[0];
      var rest := Concat(segs[1..]);
      assert Concat(segs) == s0 + rest;
      ReplaceAllSegments(segs[1..], pat, rep);
      if s0 == pat {
        ReplaceAllHit(rest, pat, rep);
      } else {
        assert Lookup(s0, [(pat, rep)]) == s0 by {
          assert [(pat, rep)][1..] == [];
        }
        if BraceFree(s0) {
          assert pat[0] == '{';
          ReplaceAllSkip(s0, rest, pat, rep);
        } else {
          SlotMiss(s0, rest, pat, rep);
        }
      }
    }
  }

  /** Rendering with one binding gives a segmentation too. */
  lemma {:induction false} RenderOne(segs: seq<string>, pat: string, rep: string, binds: seq<(string, string)>)
    requires IsSlot(pat) && BraceFree(rep) && GoodBinds(binds)
    ensures Render(segs, [(pat, rep)]) == Concat(FillSegs(segs, pat, rep))
    ensures Segmented(segs) ==> Segmented(FillSegs(segs, pat, rep))
    ensures Render(FillSegs(segs, pat, rep), binds) == Render(segs, [(pat, rep)] + binds)
    decreases |segs|
  {
    if segs != [] {
      RenderOne(segs[1..], pat, rep, binds);
      var f := FillSegs(segs, pat, rep);
      assert f[1..] == FillSegs(segs[1..], pat, rep);
      assert ([(pat, rep)] + binds)[1..] == binds;
      if segs[0] == pat {
        assert f[0] == rep;
        LookupBraceFree(rep, binds);
      } else {
        assert Lookup(segs[0], [(pat, rep)]) == segs[0] by {
          assert [(pat, rep)][1..] == [];
        }
        assert Lookup(segs[0], [(pat, rep)] + binds) == Lookup(segs[0], binds);
      }
    }
  }

  function FillSegs(segs: seq<string>, pat: string, rep: string): (r: seq<string>)
    ensures |r| == |segs|
    ensures forall k :: 0 <= k < |segs| ==> r[k] == if segs[k] == pat then rep else segs[k]
  {
    if segs == [] then [] else [if segs[0] == pat then rep else segs[0]] + FillSegs(segs[1..], pat, rep)
  }

  /** A brace-free value is never taken for a placeholder. */
  lemma {:induction false} LookupBraceFree(v: string, binds: seq<(string, string)>)
    requires BraceFree(v) && GoodBinds(binds)
    ensures Lookup(v, binds) == v
    decreases |binds|
  {
    if binds != [] {
      assert binds[0].0[0] == '{';
      assert v != binds[0].0;
      LookupBraceFree(v, binds[1..]);
    }
  }

  /** Substituting brace-free values into a segmented template renders it:
      no substituted value is ever rewritten by a later replacement. */
  lemma {:induction false} SubstituteRenders(segs: seq<string>, binds: seq<(string, string)>)
    requires Segmented(segs) && GoodBinds(binds)
    ensures Substitute(Concat(segs), binds) == Render(segs, binds)
    decreases |binds|
  {
    if binds == [] {
      RenderNoBinds(segs);
    } else {
      var pat := binds[0].0;
      var rep := binds[0].1;
      ReplaceAllSegments(segs, pat, rep);
      RenderOne(segs, pat, rep, binds[1..]);
      var f := FillSegs(segs, pat, rep);
      SubstituteRenders(f, binds[1..]);
      assert binds == [(pat, rep)] + binds[1..];
    }
  }

  lemma {:induction false} RenderNoBinds(segs: seq<string>)
    ensures Render(segs, []) == Concat(segs)
    decreases |segs|
  {
    if segs != [] {
      RenderNoBinds(segs[1..]);
    }
  }

  // ---------------------------------------------------------------------
  // Paths and arguments

  /** The path quoting BuildCommand applies: the shipped %q-based one, or
      the corrected one. */
  datatype Quoting = PercentQ | SafeQuote

  function QuotePath(q: Quoting, p: string): string {
    match q
    case PercentQ => QuotePathIfNeeded(p)
    case SafeQuote => QuotePathSafe(p)
  }

  /** The quoted path is read back as the path itself: always with the
      corrected quoting, and for paths the %q quoting handles with it. */
  predicate ReadsBack(q: Quoting, p: string) {
    q == SafeQuote || AsWrittenSafe(p)
  }

  /** ".var/app/org.libretro.RetroArch/config/retroarch/cores" */
  const CoresRel: string :=
    ".var" + "/" + ("app" + "/" + ("org.libretro.RetroArch" + "/" + ("config" + "/" + ("retroarch" + "/" + "cores"))))

  /** The RetroArch core library, $HOME/.var/app/org.libretro.RetroArch/
      config/retroarch/cores/<coreID>.so, when a core is given and the
      emulator is RetroArch; "" otherwise. */
  function CoreLibPath(e: Emulator, core: Option<EmulatorCore>, home: string): (r: string)
    ensures r != "" <==> core.Some? && e.id == RetroArch
    ensures r != "" ==> HasSuffix(r, "/" + core.value.coreID + ".so")
    ensures r != "" ==> r == (if home == "" then "" else home + "/") + CoresRel + "/" + core.value.coreID + ".so"
  {
    if core.Some? && e.id == RetroArch then
      var file := core.value.coreID + ".so";
      CoreLibForm(home, file);
      JoinPath([home] + EmulatorService.CoresTail + [file])
    else ""
  }

  /** The cores directory elements joined: CoresRel. */
  lemma CoresTailJoin()
    ensures JoinPath(EmulatorService.CoresTail) == CoresRel
  {
    JoinPathOne("cores");
    JoinPathCons("retroarch", ["cores"]);
    JoinPathCons("config", ["retroarch", "cores"]);
    JoinPathCons("org.libretro.RetroArch", ["config", "retroarch", "cores"]);
    JoinPathCons("app", ["org.libretro.RetroArch", "config", "retroarch", "cores"]);
    JoinPathCons(".var", ["app", "org.libretro.RetroArch", "config", "retroarch", "cores"]);
    assert [".var"] + ["app", "org.libretro.RetroArch", "config", "retroarch", "cores"] == EmulatorService.CoresTail;
  }

  lemma CoresDirForm(home: string)
    ensures EmulatorService.CoresDir(home) == (if home == "" then "" else home + "/") + CoresRel
  {
    var tail := EmulatorService.CoresTail;
    CoresTailJoin();
    assert ([home] + tail)[1..] == tail;
  }

  /** A file in the cores directory: the directory, a slash, the file. */
  lemma CoreLibForm(home: string, file: string)
    requires file != ""
    ensures JoinPath([home] + EmulatorService.CoresTail + [file]) == (if home == "" then "" else home + "/") + CoresRel + "/" + file
    ensures HasSuffix(JoinPath([home] + EmulatorService.CoresTail + [file]), "/" + file)
  {
    var elems := [home] + EmulatorService.CoresTail;
    var dir := (if home == "" then "" else home + "/") + CoresRel;
    CoresDirForm(home);
    assert JoinPath(elems) == dir;
    assert |CoresRel| > 0;
    JoinPathLast(elems, file);
    SlashSuffix(dir, file);
  }

  /** The library BuildCommand passes to RetroArch is the file discovery
      probes for that core. */
  lemma CoreLibIsProbedFile(e: Emulator, c: EmulatorCore, home: string)
    requires e.id == RetroArch
    ensures CoreLibPath(e, Some(c), home) == EmulatorService.CoreFilePath(home, c.coreID)
  {
    var file := c.coreID + ".so";
    CoresDirForm(home);
    var dir := EmulatorService.CoresDir(home);
    JoinPathLast([dir], file);
    assert JoinPath([dir]) == dir by {
      assert [dir][1..] == [];
    }
    assert [dir] + [file] == [dir, file];
  }

  /** The default arguments, then the custom arguments, space-separated. */
  function CombineArgs(defaultArgs: string, customArgs: string): (r: string)
    ensures customArgs == "" ==> r == defaultArgs
    ensures customArgs != "" && defaultArgs == "" ==> r == customArgs
    ensures customArgs != "" && defaultArgs != "" ==> r == defaultArgs + " " + customArgs
  {
    if customArgs == "" then defaultArgs
    else if defaultArgs == "" then customArgs
    else defaultArgs + " " + customArgs
  }

  /** Quote-free argument strings contribute the default tokens followed by
      the custom tokens, whichever of them is empty. */
  lemma CombineArgsWords(defaultArgs: string, customArgs: string)
    ensures Words(CombineArgs(defaultArgs, customArgs)) == Words(defaultArgs) + Words(customArgs)
  {
    assert Words("") == [] by {
      assert Split("", ' ') == [[]];
    }
    if customArgs != "" && defaultArgs != "" {
      WordsConcat(defaultArgs, customArgs);
    }
  }

  // ---------------------------------------------------------------------
  // BuildCommand

  function FlatpakBinds(e: Emulator, coreLib: string, args: string, rom: string, q: Quoting): seq<(string, string)> {
    [(FlatpakIDSlot, e.flatpakID), (CoreLibSlot, QuotePath(q, coreLib)), (ArgsSlot, args), (RomSlot, QuotePath(q, rom))]
  }
  /** Each placeholder of the flatpak bindings looks up its own value. */
  lemma FlatpakBindsLookup(e: Emulator, lib: string, args: string, rom: string, q: Quoting)
    ensures var binds := FlatpakBinds(e, lib, args, rom, q);
      Lookup(FlatpakIDSlot, binds) == e.flatpakID && Lookup(CoreLibSlot, binds) == QuotePath(q, lib) &&
      Lookup(ArgsSlot, binds) == args && Lookup(RomSlot, binds) == QuotePath(q, rom)
  {
    var binds := FlatpakBinds(e, lib, args, rom, q);
    var b1, b2, b3 := binds[1..], binds[2..], binds[3..];
    assert b1[1..] == b2 && b2[1..] == b3;
    assert b1[0] == (CoreLibSlot, QuotePath(q, lib));
    assert b2[0] == (ArgsSlot, args);
    assert b3[0] == (RomSlot, QuotePath(q, rom));
    assert ArgsSlot != FlatpakIDSlot && ArgsSlot != CoreLibSlot;
    assert RomSlot != FlatpakIDSlot && RomSlot != CoreLibSlot && RomSlot != ArgsSlot;
    assert CoreLibSlot != FlatpakIDSlot;
    assert Lookup(CoreLibSlot, binds) == Lookup(CoreLibSlot, b1);
    assert Lookup(ArgsSlot, binds) == Lookup(ArgsSlot, b1) == Lookup(ArgsSlot, b2);
    assert Lookup(RomSlot, binds) == Lookup(RomSlot, b1) == Lookup(RomSlot, b2) == Lookup(RomSlot, b3);
  }


  function NativeBinds(e: Emulator, args: string, rom: string, q: Quoting): seq<(string, string)> {
    [(ExecutableSlot, e.executablePath), (ArgsSlot, args), (RomSlot, QuotePath(q, rom))]
  }

  lemma SlotsAreSlots()
    ensures IsSlot(FlatpakIDSlot) && IsSlot(CoreLibSlot) && IsSlot(ArgsSlot) && IsSlot(RomSlot) && IsSlot(ExecutableSlot)
  {
  }

  /** buildFlatpakCommand: the flatpak id, quoted core path, args and quoted
      ROM path substituted in that order, then tokenised. */
  function FlatpakCommand(q: Quoting, e: Emulator, coreLib: string, rom: string, args: string): (r: seq<string>)
    ensures forall k :: 0 <= k < |r| ==> r[k] != []
  {
    SlotsAreSlots();
    ParseCommandWithQuotes(Substitute(e.commandTemplate, FlatpakBinds(e, coreLib, args, rom, q)))
  }

  /** buildNativeCommand: the executable, args and quoted ROM path
      substituted in that order, then tokenised. */
  function NativeCommand(q: Quoting, e: Emulator, rom: string, args: string): (r: seq<string>)
    ensures forall k :: 0 <= k < |r| ==> r[k] != []
  {
    SlotsAreSlots();
    ParseCommandWithQuotes(Substitute(e.commandTemplate, NativeBinds(e, args, rom, q)))
  }

  /** BuildCommand with a choice of path quoting: a missing emulator and an
      unavailable one are rejected before any substitution; a flatpak
      emulator uses the flatpak template fields, any other type the native
      ones. */
  function BuildCommandWith(q: Quoting, emulator: Option<Emulator>, core: Option<EmulatorCore>,
                            romPath: string, customArgs: string, home: string): (r: Result<seq<string>>)
    ensures emulator.None? ==> r == Err("emulator is nil")
    ensures emulator.Some? && !emulator.value.isAvailable ==>
      r == Err("emulator " + emulator.value.id + " is not available")
    ensures r.Ok? <==> emulator.Some? && emulator.value.isAvailable
    ensures r.Ok? ==> forall k :: 0 <= k < |r.value| ==> r.value[k] != []
  {
    if emulator.None? then Err("emulator is nil")
    else
      var e := emulator.value;
      if !e.isAvailable then Err("emulator " + e.id + " is not available")
      else
        var args := CombineArgs(e.defaultArgs, customArgs);
        if e.etype == Flatpak then Ok(FlatpakCommand(q, e, CoreLibPath(e, core, home), romPath, args))
        else Ok(NativeCommand(q, e, romPath, args))
  }

  /** BuildCommand as shipped. */
  function BuildCommand(emulator: Option<Emulator>, core: Option<EmulatorCore>,
                        romPath: string, customArgs: string, home: string): (r: Result<seq<string>>)
    ensures r.Ok? <==> emulator.Some? && emulator.value.isAvailable
  {
    BuildCommandWith(PercentQ, emulator, core, romPath, customArgs, home)
  }

  lemma ConcatStep(segs: seq<string>, i: nat)
    requires i < |segs|
    ensures Concat(segs[i..]) == segs[i] + Concat(segs[i + 1..])
  {
    assert segs[i..][1..] == segs[i + 1..];
  }

  lemma RenderStep(segs: seq<string>, binds: seq<(string, string)>, i: nat)
    requires i < |segs|
    ensures Render(segs[i..], binds) == Lookup(segs[i], binds) + Render(segs[i + 1..], binds)
  {
    assert segs[i..][1..] == segs[i + 1..];
  }

  lemma ConcatUnroll(segs: seq<string>)
    requires |segs| == 8
    ensures Concat(segs) == segs[0] + (segs[1] + (segs[2] + (segs[3] + (segs[4] + (segs[5] + (segs[6] + segs[7]))))))
  {
    assert segs[8..] == [];
    ConcatStep(segs, 7);
    ConcatStep(segs, 6);
    ConcatStep(segs, 5);
    ConcatStep(segs, 4);
    ConcatStep(segs, 3);
    ConcatStep(segs, 2);
    ConcatStep(segs, 1);
    ConcatStep(segs, 0);
    assert segs[0..] == segs;
  }

  lemma RenderUnroll(segs: seq<string>, binds: seq<(string, string)>)
    requires |segs| == 8
    ensures Render(segs, binds) ==
      Lookup(segs[0], binds) + Lookup(segs[1], binds) + Lookup(segs[2], binds) + Lookup(segs[3], binds) +
      Lookup(segs[4], binds) + Lookup(segs[5], binds) + Lookup(segs[6], binds) + Lookup(segs[7], binds)
  {
    assert segs[8..] == [];
    RenderStep(segs, binds, 7);
    RenderStep(segs, binds, 6);
    RenderStep(segs, binds, 5);
    RenderStep(segs, binds, 4);
    RenderStep(segs, binds, 3);
    RenderStep(segs, binds, 2);
    RenderStep(segs, binds, 1);
    RenderStep(segs, binds, 0);
    assert segs[0..] == segs;
  }

  lemma ConcatUnroll6(segs: seq<string>)
    requires |segs| == 6
    ensures Concat(segs) == segs[0] + segs[1] + segs[2] + segs[3] + segs[4] + segs[5]
  {
    assert segs[6..] == [];
    ConcatStep(segs, 5);
    ConcatStep(segs, 4);
    ConcatStep(segs, 3);
    ConcatStep(segs, 2);
    ConcatStep(segs, 1);
    ConcatStep(segs, 0);
    assert segs[0..] == segs;
  }

  lemma RenderUnroll6(segs: seq<string>, binds: seq<(string, string)>)
    requires |segs| == 6
    ensures Render(segs, binds) ==
      Lookup(segs[0], binds) + Lookup(segs[1], binds) + Lookup(segs[2], binds) + Lookup(segs[3], binds) +
      Lookup(segs[4], binds) + Lookup(segs[5], binds)
  {
    assert segs[6..] == [];
    RenderStep(segs, binds, 5);
    RenderStep(segs, binds, 4);
    RenderStep(segs, binds, 3);
    RenderStep(segs, binds, 2);
    RenderStep(segs, binds, 1);
    RenderStep(segs, binds, 0);
    assert segs[0..] == segs;
  }

  // ---------------------------------------------------------------------
  // What the RetroArch command tokenises to

  /** A single command-line word needing no quoting or substitution care. */
  predicate Word(w: string) {
    w != [] && QuoteFree(w) && ' ' !in w && BraceFree(w)
  }

  lemma QuotePathBraceFree(q: Quoting, p: string)
    requires BraceFree(p)
    ensures BraceFree(QuotePath(q, p))
  {
    QuotingKeepsOut(p, '{');
  }

  /** A path that reads back, followed by a space, becomes one token. */
  lemma QuotedSpace(st: TokState, q: Quoting, p: string)
    requires Unquoted(st) && st.cur == [] && p != [] && ReadsBack(q, p)
    ensures Run(st, QuotePath(q, p) + " ") == TokState(st.args + [p], [], false, NoQuote)
  {
    RunAppend(st, QuotePath(q, p), " ");
    if q == SafeQuote {
      RunQuotePathSafe(st, p);
    } else {
      RunQuotePathIfNeeded(st, p);
    }
    assert st.cur + p == p;
  }

  /** The RetroArch template read as its segments joined from the right. */
  lemma RetroArchTemplateRight()
    ensures RetroArchTemplate ==
      "flatpak run " + (FlatpakIDSlot + (" -L " + (CoreLibSlot + (" " + (ArgsSlot + (" " + RomSlot))))))
  {
  }

  /** The RetroArch template with brace-free values substituted. */
  lemma RetroArchSubstitution(q: Quoting, e: Emulator, lib: string, args: string, rom: string)
    requires e.commandTemplate == RetroArchTemplate
    requires BraceFree(e.flatpakID) && BraceFree(lib) && BraceFree(args) && BraceFree(rom)
    ensures Substitute(e.commandTemplate, FlatpakBinds(e, lib, args, rom, q)) ==
      "flatpak run " + e.flatpakID + " -L " + QuotePath(q, lib) + " " + args + " " + QuotePath(q, rom)
  {
    var qc := QuotePath(q, lib);
    var qr := QuotePath(q, rom);
    QuotePathBraceFree(q, lib);
    QuotePathBraceFree(q, rom);
    SlotsAreSlots();
    var segs := ["flatpak run ", FlatpakIDSlot, " -L ", CoreLibSlot, " ", ArgsSlot, " ", RomSlot];
    ConcatUnroll(segs);
    RetroArchTemplateRight();
    var binds := FlatpakBinds(e, lib, args, rom, q);
    assert Segmented(segs);
    assert GoodBinds(binds);
    SubstituteRenders(segs, binds);
    LookupBraceFree("flatpak run ", binds);
    LookupBraceFree(" -L ", binds);
    LookupBraceFree(" ", binds);
    RenderUnroll(segs, binds);
    FlatpakBindsLookup(e, lib, args, rom, q);
  }

  /** A word and a space, then the rest of the line. */
  lemma WordThen(xs: seq<string>, w: string, rest: string)
    requires w != [] && QuoteFree(w) && ' ' !in w
    ensures Run(TokState(xs, [], false, NoQuote), w + " " + rest) == Run(TokState(xs + [w], [], false, NoQuote), rest)
  {
    var st := TokState(xs, [], false, NoQuote);
    WordSpace(st, w);
    RunAppend(st, w + " ", rest);
  }

  /** A path that reads back and a space, then the rest of the line. */
  lemma PathThen(xs: seq<string>, q: Quoting, p: string, rest: string)
    requires p != [] && ReadsBack(q, p)
    ensures Run(TokState(xs, [], false, NoQuote), QuotePath(q, p) + " " + rest) ==
      Run(TokState(xs + [p], [], false, NoQuote), rest)
  {
    var st := TokState(xs, [], false, NoQuote);
    QuotedSpace(st, q, p);
    RunAppend(st, QuotePath(q, p) + " ", rest);
  }

  /** Quote-free text and a space, then the rest of the line. */
  lemma ArgsThen(xs: seq<string>, a: string, rest: string)
    requires QuoteFree(a)
    ensures Run(TokState(xs, [], false, NoQuote), a + " " + rest) == Run(TokState(xs + Words(a), [], false, NoQuote), rest)
  {
    var st := TokState(xs, [], false, NoQuote);
    WordsSpace(st, a);
    RunAppend(st, a + " ", rest);
  }

  /** "flatpak run " then a word and a space, then the rest of the line. */
  lemma FlatpakRunThen(id: string, rest: string)
    requires Word(id)
    ensures Run(Start, "flatpak run " + id + " " + rest) == Run(TokState(["flatpak", "run", id], [], false, NoQuote), rest)
  {
    var t2 := id + " " + rest;
    var t1 := "run" + " " + t2;
    assert "flatpak run " + id + " " + rest == "flatpak" + " " + t1;
    assert QuoteFree("flatpak") && QuoteFree("run");
    WordThen([], "flatpak", t1);
    assert [] + ["flatpak"] == ["flatpak"];
    WordThen(["flatpak"], "run", t2);
    assert ["flatpak"] + ["run"] == ["flatpak", "run"];
    WordThen(["flatpak", "run"], id, rest);
    assert ["flatpak", "run"] + [id] == ["flatpak", "run", id];
  }

  /** "flatpak run <id> -L " then the rest of the line. */
  lemma RetroArchHead(id: string, rest: string)
    requires Word(id)
    ensures Run(Start, "flatpak run " + id + " -L " + rest) == Run(TokState(["flatpak", "run", id, "-L"], [], false, NoQuote), rest)
  {
    var t := "-L" + " " + rest;
    assert "flatpak run " + id + " -L " + rest == "flatpak run " + id + " " + t;
    FlatpakRunThen(id, t);
    assert QuoteFree("-L");
    WordThen(["flatpak", "run", id], "-L", rest);
    assert ["flatpak", "run", id] + ["-L"] == ["flatpak", "run", id, "-L"];
  }

  /** How the substituted RetroArch command line tokenises. */
  lemma RetroArchTokens(q: Quoting, flatpakID: string, lib: string, args: string, qr: string)
    requires Word(flatpakID) && lib != [] && ReadsBack(q, lib) && QuoteFree(args)
    ensures ParseCommandWithQuotes("flatpak run " + flatpakID + " -L " + QuotePath(q, lib) + " " + args + " " + qr) ==
      ["flatpak", "run", flatpakID, "-L", lib] + Words(args) + ParseCommandWithQuotes(qr)
  {
    var qc := QuotePath(q, lib);
    var t5 := args + " " + qr;
    var t4 := qc + " " + t5;
    assert "flatpak run " + flatpakID + " -L " + qc + " " + args + " " + qr == "flatpak run " + flatpakID + " -L " + t4;
    RetroArchHead(flatpakID, t4);
    PathThen(["flatpak", "run", flatpakID, "-L"], q, lib, t5);
    assert ["flatpak", "run", flatpakID, "-L"] + [lib] == ["flatpak", "run", flatpakID, "-L", lib];
    ArgsThen(["flatpak", "run", flatpakID, "-L", lib], args, qr);
    FinishFrom(["flatpak", "run", flatpakID, "-L", lib] + Words(args), qr);
  }

  /** With the RetroArch template, a flatpak id that is a plain word,
      quote-free arguments and a core path that reads back, the command is
      "flatpak run <id> -L <core path>", the argument words, then whatever
      the quoted ROM path tokenises to on its own. */
  lemma RetroArchCommand(q: Quoting, e: Emulator, c: EmulatorCore, rom: string, customArgs: string, home: string)
    requires e.isAvailable && e.etype == Flatpak && e.id == RetroArch && e.commandTemplate == RetroArchTemplate
    requires Word(e.flatpakID)
    requires QuoteFree(CombineArgs(e.defaultArgs, customArgs)) && BraceFree(CombineArgs(e.defaultArgs, customArgs))
    requires BraceFree(home) && BraceFree(c.coreID) && ReadsBack(q, CoreLibPath(e, Some(c), home))
    requires BraceFree(rom)
    ensures BuildCommandWith(q, Some(e), Some(c), rom, customArgs, home) ==
      Ok(["flatpak", "run", e.flatpakID, "-L", CoreLibPath(e, Some(c), home)] +
         Words(CombineArgs(e.defaultArgs, customArgs)) +
         ParseCommandWithQuotes(QuotePath(q, rom)))
  {
    var args := CombineArgs(e.defaultArgs, customArgs);
    var lib := CoreLibPath(e, Some(c), home);
    CoreLibBraceFree(e, c, home);
    assert BuildCommandWith(q, Some(e), Some(c), rom, customArgs, home) == Ok(FlatpakCommand(q, e, lib, rom, args));
    RetroArchSubstitution(q, e, lib, args, rom);
    RetroArchTokens(q, e.flatpakID, lib, args, QuotePath(q, rom));
  }

  /** The core library path holds no brace when HOME and the core id hold
      none. */
  lemma CoreLibBraceFree(e: Emulator, c: EmulatorCore, home: string)
    requires e.id == RetroArch && BraceFree(home) && BraceFree(c.coreID)
    ensures BraceFree(CoreLibPath(e, Some(c), home)) && CoreLibPath(e, Some(c), home) != []
  {
    var lib := CoreLibPath(e, Some(c), home);
    assert BraceFree(CoresRel) by {
      assert forall k :: 0 <= k < |CoresRel| ==> CoresRel[k] != '{';
    }
    assert lib == (if home == "" then "" else home + "/") + CoresRel + "/" + c.coreID + ".so";
  }

  /** Five leading tokens, the argument words, then one last token. */
  lemma LastToken(r: Result<seq<string>>, head: seq<string>, ws: seq<string>, x: string)
    requires |head| == 5 && r == Ok(head + ws + [x])
    ensures r.Ok? && |r.value| >= 6 && r.value[|r.value| - 1] == x
  {
  }

  /** With the corrected quoting, any non-empty ROM path comes back as the
      last token, whatever spaces, quotes or backslashes it holds. */
  lemma SafeRomRoundTrip(e: Emulator, c: EmulatorCore, rom: string, customArgs: string, home: string)
    requires e.isAvailable && e.etype == Flatpak && e.id == RetroArch && e.commandTemplate == RetroArchTemplate
    requires Word(e.flatpakID)
    requires QuoteFree(CombineArgs(e.defaultArgs, customArgs)) && BraceFree(CombineArgs(e.defaultArgs, customArgs))
    requires BraceFree(home) && BraceFree(c.coreID)
    requires rom != [] && BraceFree(rom)
    ensures var r := BuildCommandWith(SafeQuote, Some(e), Some(c), rom, customArgs, home);
      r.Ok? && |r.value| >= 6 && r.value[|r.value| - 1] == rom
  {
    RetroArchCommand(SafeQuote, e, c, rom, customArgs, home);
    QuotePathSafeRoundTrip(rom);
  }

  /** The shipped quoting round-trips a ROM path that has a space but no
      character %q escapes, or neither a space nor a quote character. */
  lemma PercentQRomRoundTrip(e: Emulator, c: EmulatorCore, rom: string, customArgs: string, home: string)
    requires e.isAvailable && e.etype == Flatpak && e.id == RetroArch && e.commandTemplate == RetroArchTemplate
    requires Word(e.flatpakID)
    requires QuoteFree(CombineArgs(e.defaultArgs, customArgs)) && BraceFree(CombineArgs(e.defaultArgs, customArgs))
    requires BraceFree(home) && BraceFree(c.coreID) && AsWrittenSafe(CoreLibPath(e, Some(c), home))
    requires rom != [] && BraceFree(rom) && AsWrittenSafe(rom)
    ensures var r := BuildCommand(Some(e), Some(c), rom, customArgs, home);
      r.Ok? && |r.value| >= 6 && r.value[|r.value| - 1] == rom
  {
    RetroArchCommand(PercentQ, e, c, rom, customArgs, home);
    RunQuotePathIfNeeded(Start, rom);
    assert Start.cur + rom == rom;
  }

  /** As shipped, a space-free ROM path holding a quote character is passed
      unquoted and the tokeniser drops the quote: w, a quote, then p launches
      as w + p ("it's.nes" as "its.nes"). */
  lemma RomQuoteLost(e: Emulator, c: EmulatorCore, customArgs: string, home: string, w: string, q: char, p: string)
    requires e.isAvailable && e.etype == Flatpak && e.id == RetroArch && e.commandTemplate == RetroArchTemplate
    requires Word(e.flatpakID)
    requires QuoteFree(CombineArgs(e.defaultArgs, customArgs)) && BraceFree(CombineArgs(e.defaultArgs, customArgs))
    requires BraceFree(home) && BraceFree(c.coreID) && AsWrittenSafe(CoreLibPath(e, Some(c), home))
    requires QuoteFree(w) && ' ' !in w && IsQuote(q) && q !in p && ' ' !in p && w + p != []
    requires BraceFree(w + [q] + p)
    ensures var r := BuildCommand(Some(e), Some(c), w + [q] + p, customArgs, home);
      r.Ok? && |r.value| >= 6 && r.value[|r.value| - 1] == w + p
  {
    QuoteLost(w, q, p);
    RomLastToken(PercentQ, e, c, w + [q] + p, customArgs, home, w + p);
  }

  /** A ROM path that reads back as the single token x ends the command
      with x. */
  lemma RomLastToken(q: Quoting, e: Emulator, c: EmulatorCore, rom: string, customArgs: string, home: string, x: string)
    requires e.isAvailable && e.etype == Flatpak && e.id == RetroArch && e.commandTemplate == RetroArchTemplate
    requires Word(e.flatpakID)
    requires QuoteFree(CombineArgs(e.defaultArgs, customArgs)) && BraceFree(CombineArgs(e.defaultArgs, customArgs))
    requires BraceFree(home) && BraceFree(c.coreID) && ReadsBack(q, CoreLibPath(e, Some(c), home))
    requires BraceFree(rom) && ParseCommandWithQuotes(QuotePath(q, rom)) == [x]
    ensures var r := BuildCommandWith(q, Some(e), Some(c), rom, customArgs, home);
      r.Ok? && |r.value| >= 6 && r.value[|r.value| - 1] == x
  {
    RetroArchCommand(q, e, c, rom, customArgs, home);
    LastToken(BuildCommandWith(q, Some(e), Some(c), rom, customArgs, home),
      ["flatpak", "run", e.flatpakID, "-L", CoreLibPath(e, Some(c), home)],
      Words(CombineArgs(e.defaultArgs, customArgs)), x);
  }

  /** The plain flatpak template with brace-free values substituted. */
  lemma FlatpakSubstitution(q: Quoting, e: Emulator, lib: string, args: string, rom: string)
    requires e.commandTemplate == FlatpakTemplate
    requires BraceFree(e.flatpakID) && BraceFree(lib) && BraceFree(args) && BraceFree(rom)
    ensures Substitute(e.commandTemplate, FlatpakBinds(e, lib, args, rom, q)) ==
      "flatpak run " + e.flatpakID + " " + args + " " + QuotePath(q, rom)
  {
    var qc := QuotePath(q, lib);
    var qr := QuotePath(q, rom);
    QuotePathBraceFree(q, lib);
    QuotePathBraceFree(q, rom);
    SlotsAreSlots();
    var segs := ["flatpak run ", FlatpakIDSlot, " ", ArgsSlot, " ", RomSlot];
    ConcatUnroll6(segs);
    assert Concat(segs) == FlatpakTemplate;
    var binds := FlatpakBinds(e, lib, args, rom, q);
    assert Segmented(segs);
    assert GoodBinds(binds);
    SubstituteRenders(segs, binds);
    LookupBraceFree("flatpak run ", binds);
    LookupBraceFree(" ", binds);
    RenderUnroll6(segs, binds);
    FlatpakBindsLookup(e, lib, args, rom, q);
  }

  /** A flatpak emulator on the plain template (Nestopia, Dolphin): "flatpak
      run <id>", the argument words, then what the quoted ROM path tokenises
      to; a core, if given, plays no part. */
  lemma FlatpakCommandShape(q: Quoting, e: Emulator, core: Option<EmulatorCore>, rom: string, customArgs: string, home: string)
    requires e.isAvailable && e.etype == Flatpak && e.id != RetroArch && e.commandTemplate == FlatpakTemplate
    requires Word(e.flatpakID)
    requires QuoteFree(CombineArgs(e.defaultArgs, customArgs)) && BraceFree(CombineArgs(e.defaultArgs, customArgs))
    requires BraceFree(rom)
    ensures BuildCommandWith(q, Some(e), core, rom, customArgs, home) ==
      Ok(["flatpak", "run", e.flatpakID] + Words(CombineArgs(e.defaultArgs, customArgs)) + ParseCommandWithQuotes(QuotePath(q, rom)))
  {
    var args := CombineArgs(e.defaultArgs, customArgs);
    var qr := QuotePath(q, rom);
    assert CoreLibPath(e, core, home) == "";
    FlatpakSubstitution(q, e, "", args, rom);
    var t3 := args + " " + qr;
    assert "flatpak run " + e.flatpakID + " " + args + " " + qr == "flatpak run " + e.flatpakID + " " + t3;
    FlatpakRunThen(e.flatpakID, t3);
    ArgsThen(["flatpak", "run", e.flatpakID], args, qr);
    FinishFrom(["flatpak", "run", e.flatpakID] + Words(args), qr);
  }

  /** A native emulator on the template "{executable} {args} {rom}". */
  const NativeTemplate: string := ExecutableSlot + " " + ArgsSlot + " " + RomSlot

  lemma NativeBindsLookup(e: Emulator, args: string, rom: string, q: Quoting)
    ensures var binds := NativeBinds(e, args, rom, q);
      Lookup(ExecutableSlot, binds) == e.executablePath &&
      Lookup(ArgsSlot, binds) == args && Lookup(RomSlot, binds) == QuotePath(q, rom)
  {
    var binds := NativeBinds(e, args, rom, q);
    var b1, b2 := binds[1..], binds[2..];
    assert b1[1..] == b2;
    assert b1[0] == (ArgsSlot, args);
    assert b2[0] == (RomSlot, QuotePath(q, rom));
    assert ArgsSlot != ExecutableSlot;
    assert RomSlot != ExecutableSlot && RomSlot != ArgsSlot;
    assert Lookup(ArgsSlot, binds) == Lookup(ArgsSlot, b1);
    assert Lookup(RomSlot, binds) == Lookup(RomSlot, b1) == Lookup(RomSlot, b2);
  }

  /** The native template with brace-free values substituted. */
  lemma NativeSubstitution(q: Quoting, e: Emulator, args: string, rom: string)
    requires e.commandTemplate == NativeTemplate
    requires BraceFree(e.executablePath) && BraceFree(args) && BraceFree(rom)
    ensures Substitute(e.commandTemplate, NativeBinds(e, args, rom, q)) ==
      e.executablePath + " " + args + " " + QuotePath(q, rom)
  {
    QuotePathBraceFree(q, rom);
    SlotsAreSlots();
    var segs := ["", ExecutableSlot, " ", ArgsSlot, " ", RomSlot];
    ConcatUnroll6(segs);
    assert Concat(segs) == NativeTemplate;
    var binds := NativeBinds(e, args, rom, q);
    assert Segmented(segs);
    assert GoodBinds(binds);
    SubstituteRenders(segs, binds);
    LookupBraceFree("", binds);
    LookupBraceFree(" ", binds);
    RenderUnroll6(segs, binds);
    NativeBindsLookup(e, args, rom, q);
  }

  /** A native emulator on the native template: the executable, the
      argument words, then what the quoted ROM path tokenises to; a core, if
      given, plays no part. */
  lemma NativeCommandShape(q: Quoting, e: Emulator, core: Option<EmulatorCore>, rom: string, customArgs: string, home: string)
    requires e.isAvailable && e.etype != Flatpak && e.commandTemplate == NativeTemplate
    requires Word(e.executablePath)
    requires QuoteFree(CombineArgs(e.defaultArgs, customArgs)) && BraceFree(CombineArgs(e.defaultArgs, customArgs))
    requires BraceFree(rom)
    ensures BuildCommandWith(q, Some(e), core, rom, customArgs, home) ==
      Ok([e.executablePath] + Words(CombineArgs(e.defaultArgs, customArgs)) + ParseCommandWithQuotes(QuotePath(q, rom)))
  {
    var args := CombineArgs(e.defaultArgs, customArgs);
    var qr := QuotePath(q, rom);
    NativeSubstitution(q, e, args, rom);
    var t := args + " " + qr;
    assert e.executablePath + " " + args + " " + qr == e.executablePath + " " + t;
    WordThen([], e.executablePath, t);
    assert [] + [e.executablePath] == [e.executablePath];
    ArgsThen([e.executablePath], args, qr);
    FinishFrom([e.executablePath] + Words(args), qr);
  }
}
