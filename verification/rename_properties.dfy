/**
 Properties of the rename pass that relate several calls: what a whole
 pass may touch, what its log says, when a second pass is a no-op (and an
 input where it is not), the precedence of explicit options over the host's
 configuration, and worked scenarios.
 */
module RenameProperties {
  import opened Wrappers
  import opened JsValues
  import opened Paths
  import opened HtmlRename

  /** `writeBundle` creates or removes no path whose directory part differs
      from the resolved output directory. */
  lemma WriteBundleStaysInOutDir(keyMap: JsValue, config: Option<HostConfig>, dir: Option<string>, files: set<Path>)
    ensures forall p: Path :: p.dir != ResolveOutDir(dir, config) ==>
      (p in WriteBundle(keyMap, config, dir, files).files <==> p in files)
  {
    var input := ResolveInput(keyMap, config);
    var outDir := ResolveOutDir(dir, config);
    if IsObject(input) {
      var st := Outcome(files, []);
      RenameAllCreatesOnlyTargets(outDir, st, Entries(input));
      RenameAllRemovesOnlySources(outDir, st, Entries(input));
      forall p: Path | p.dir != outDir
        ensures p in WriteBundle(keyMap, config, dir, files).files <==> p in files
      {
        TouchedPathsOfEntries(outDir, Entries(input), p);
      }
    }
  }

  /** `line` reports the rename of some `.html` entry's emitted file to
      its different target name `<entry name>.html`. */
  ghost predicate IsRenameLine(entries: seq<Entry>, line: LogLine) {
    exists e :: e in entries && IsHtmlEntry(e) && OriginalName(e) != NewName(e)
      && line == Renamed(OriginalName(e), NewName(e))
  }

  /** Every line a pass logs reports the rename of one of its entries. */
  lemma {:induction false} LogLinesNameEntries(outDir: string, st: Outcome, entries: seq<Entry>)
    ensures forall k :: |st.log| <= k < |RenameAll(outDir, st, entries).log| ==>
      IsRenameLine(entries, RenameAll(outDir, st, entries).log[k])
    decreases |entries|
  {
    if |entries| > 0 {
      var e := entries[0];
      var mid := RenameEntry(outDir, st, e);
      var r := RenameAll(outDir, mid, entries[1..]);
      LogLinesNameEntries(outDir, mid, entries[1..]);
      assert forall k :: |mid.log| <= k < |r.log| ==> IsRenameLine(entries[1..], r.log[k]);
      forall k | |st.log| <= k < |r.log|
        ensures IsRenameLine(entries, r.log[k])
      {
        if k < |mid.log| {
          assert e in entries && WillRename(outDir, st.files, e);
          assert r.log[k] == r.log[..|mid.log|][k] == mid.log[k];
        } else {
          assert IsRenameLine(entries[1..], r.log[k]);
          var e' :| e' in entries[1..] && IsHtmlEntry(e') && OriginalName(e') != NewName(e')
            && r.log[k] == Renamed(OriginalName(e'), NewName(e'));
          assert e' in entries;
        }
      }
    }
  }

  /** No entry's emitted name is another rename's target: then a pass never
      renames a file onto a name a later entry still has to move away. */
  predicate ChainFree(entries: seq<Entry>) {
    forall e1, e2 ::
      e1 in entries && e2 in entries && IsHtmlEntry(e1) && IsHtmlEntry(e2) && OriginalName(e1) != NewName(e1)
      ==> OriginalName(e1) != NewName(e2)
  }

  /** No entry that would need renaming finds its emitted file. */
  predicate SourcesAbsent(outDir: string, files: set<Path>, entries: seq<Entry>) {
    forall e :: e in entries && IsHtmlEntry(e) && OriginalName(e) != NewName(e) ==>
      Join(outDir, OriginalName(e)) !in files
  }

  /** With every emitted file already gone, a pass changes nothing and logs nothing. */
  lemma {:induction false} NothingToRenameIsNoOp(outDir: string, st: Outcome, entries: seq<Entry>)
    requires SourcesAbsent(outDir, st.files, entries)
    ensures RenameAll(outDir, st, entries) == st
    decreases |entries|
  {
    if |entries| > 0 {
      assert entries[0] in entries;
      assert !WillRename(outDir, st.files, entries[0]);
      assert forall e :: e in entries[1..] ==> e in entries;
      NothingToRenameIsNoOp(outDir, st, entries[1..]);
    }
  }

  /** After a chain-free pass no entry that needed renaming finds its emitted file. */
  lemma {:induction false} ChainFreePassRemovesSources(outDir: string, st: Outcome, entries: seq<Entry>)
    requires ChainFree(entries)
    ensures SourcesAbsent(outDir, RenameAll(outDir, st, entries).files, entries)
    decreases |entries|
  {
    if |entries| > 0 {
      var e := entries[0];
      var rest := entries[1..];
      var mid := RenameEntry(outDir, st, e);
      var r := RenameAll(outDir, mid, rest);
      assert e in entries;
      assert forall e' :: e' in rest ==> e' in entries;
      ChainFreePassRemovesSources(outDir, mid, rest);
      RenameAllCreatesOnlyTargets(outDir, mid, rest);
      if IsHtmlEntry(e) && OriginalName(e) != NewName(e) {
        var source := Join(outDir, OriginalName(e));
        assert source !in mid.files;
        TouchedPathsOfEntries(outDir, rest, source);
        assert source !in r.files;
      }
    }
  }

  /** A chain-free pass is idempotent: running it again on the files it
      left renames nothing and logs nothing. */
  lemma ChainFreePassIdempotent(outDir: string, st: Outcome, entries: seq<Entry>, log: seq<LogLine>)
    requires ChainFree(entries)
    ensures var files := RenameAll(outDir, st, entries).files;
      RenameAll(outDir, Outcome(files, log), entries) == Outcome(files, log)
  {
    ChainFreePassRemovesSources(outDir, st, entries);
    NothingToRenameIsNoOp(outDir, Outcome(RenameAll(outDir, st, entries).files, log), entries);
  }

  /** The same for the whole hook: with a chain-free mapping, a second
      `writeBundle` under the same options and configuration leaves the
      files as the first one left them and logs nothing. */
  lemma WriteBundleIdempotentWhenChainFree(keyMap: JsValue, config: Option<HostConfig>, dir: Option<string>, files: set<Path>)
    requires IsObject(ResolveInput(keyMap, config)) ==> ChainFree(Entries(ResolveInput(keyMap, config)))
    ensures var first := WriteBundle(keyMap, config, dir, files);
      WriteBundle(keyMap, config, dir, first.files) == Outcome(first.files, [])
  {
    var input := ResolveInput(keyMap, config);
    if IsObject(input) {
      ChainFreePassIdempotent(ResolveOutDir(dir, config), Outcome(files, []), Entries(input), []);
    }
  }

  /** Two `.html` entries where the second one's target is the first one's
      emitted name: `a` with source `<nb>.html` and `b` named `nb` with
      source `fb`. The mapping is not chain-free. Starting from the two
      emitted files, the first pass renames both, and a second pass moves
      the file now named `<nb>.html` onto `a`'s target `<na>.html`,
      overwriting it. So a pass is not idempotent in general. */
  lemma ChainedEntriesSecondPass(outDir: string, na: string, nb: string, fb: string)
    requires '/' !in nb && '/' !in fb && EndsWith(fb, HtmlSuffix)
    requires na != nb && fb != na + HtmlSuffix && fb != nb + HtmlSuffix
    ensures var a, b := Entry(na, nb + HtmlSuffix), Entry(nb, fb);
      var x, y := Join(outDir, na + HtmlSuffix), Join(outDir, nb + HtmlSuffix);
      var first := RenameAll(outDir, Outcome({y, Join(outDir, fb)}, []), [a, b]);
      && !ChainFree([a, b])
      && first == Outcome({x, y}, [Renamed(nb + HtmlSuffix, na + HtmlSuffix), Renamed(fb, nb + HtmlSuffix)])
      && RenameAll(outDir, Outcome(first.files, []), [a, b]) == Outcome({x}, [Renamed(nb + HtmlSuffix, na + HtmlSuffix)])
  {
    var a, b := Entry(na, nb + HtmlSuffix), Entry(nb, fb);
    ChainedNames(na, nb, fb);
    assert a in [a, b] && b in [a, b];
    ChainedEntriesFirstPass(outDir, na, nb, fb);
    ChainedEntriesRerun(outDir, na, nb, fb);
  }

  /** The names in the chained case: `a` is emitted as `<nb>.html` and
      targets `<na>.html`; `b` is emitted as `fb` and targets `<nb>.html`;
      the three names are distinct. */
  lemma ChainedNames(na: string, nb: string, fb: string)
    requires '/' !in nb && '/' !in fb && EndsWith(fb, HtmlSuffix)
    requires na != nb && fb != na + HtmlSuffix && fb != nb + HtmlSuffix
    ensures var a, b := Entry(na, nb + HtmlSuffix), Entry(nb, fb);
      && IsHtmlEntry(a) && OriginalName(a) == nb + HtmlSuffix && NewName(a) == na + HtmlSuffix
      && IsHtmlEntry(b) && OriginalName(b) == fb && NewName(b) == nb + HtmlSuffix
      && na + HtmlSuffix != nb + HtmlSuffix
  {
    assert '/' !in nb + HtmlSuffix;
    assert (nb + HtmlSuffix)[|nb + HtmlSuffix| - |HtmlSuffix|..] == HtmlSuffix;
    PlainHtmlSource(na, nb + HtmlSuffix);
    PlainHtmlSource(nb, fb);
    if |na| == |nb| {
      assert (na + HtmlSuffix)[..|na|] == na && (nb + HtmlSuffix)[..|nb|] == nb;
    }
  }

  /** The first pass of `ChainedEntriesSecondPass`, from the two emitted files. */
  lemma ChainedEntriesFirstPass(outDir: string, na: string, nb: string, fb: string)
    requires '/' !in nb && '/' !in fb && EndsWith(fb, HtmlSuffix)
    requires na != nb && fb != na + HtmlSuffix && fb != nb + HtmlSuffix
    ensures RenameAll(outDir, Outcome({Join(outDir, nb + HtmlSuffix), Join(outDir, fb)}, []),
                      [Entry(na, nb + HtmlSuffix), Entry(nb, fb)])
         == Outcome({Join(outDir, na + HtmlSuffix), Join(outDir, nb + HtmlSuffix)},
                    [Renamed(nb + HtmlSuffix, na + HtmlSuffix), Renamed(fb, nb + HtmlSuffix)])
  {
    ChainedFirstStep(outDir, na, nb, fb);
    ChainedSecondStep(outDir, na, nb, fb);
    TwoEntries(outDir, Outcome({Join(outDir, nb + HtmlSuffix), Join(outDir, fb)}, []),
               Entry(na, nb + HtmlSuffix), Entry(nb, fb));
  }

  /** First step of `ChainedEntriesFirstPass`: `a`'s file `<nb>.html` moves to `<na>.html`. */
  lemma ChainedFirstStep(outDir: string, na: string, nb: string, fb: string)
    requires '/' !in nb && '/' !in fb && EndsWith(fb, HtmlSuffix)
    requires na != nb && fb != na + HtmlSuffix && fb != nb + HtmlSuffix
    ensures RenameEntry(outDir, Outcome({Join(outDir, nb + HtmlSuffix), Join(outDir, fb)}, []), Entry(na, nb + HtmlSuffix))
         == Outcome({Join(outDir, na + HtmlSuffix), Join(outDir, fb)}, [Renamed(nb + HtmlSuffix, na + HtmlSuffix)])
  {
    var x, y, z := Join(outDir, na + HtmlSuffix), Join(outDir, nb + HtmlSuffix), Join(outDir, fb);
    var a := Entry(na, nb + HtmlSuffix);
    ChainedNames(na, nb, fb);
    assert WillRename(outDir, {y, z}, a);
    RenameEntryFrame(outDir, Outcome({y, z}, []), a);
    assert RenameEntry(outDir, Outcome({y, z}, []), a).files == {x, z};
  }

  /** Second step of `ChainedEntriesFirstPass`: `b`'s file moves onto the name `a` just vacated. */
  lemma ChainedSecondStep(outDir: string, na: string, nb: string, fb: string)
    requires '/' !in nb && '/' !in fb && EndsWith(fb, HtmlSuffix)
    requires na != nb && fb != na + HtmlSuffix && fb != nb + HtmlSuffix
    ensures RenameEntry(outDir, Outcome({Join(outDir, na + HtmlSuffix), Join(outDir, fb)}, [Renamed(nb + HtmlSuffix, na + HtmlSuffix)]),
                        Entry(nb, fb))
         == Outcome({Join(outDir, na + HtmlSuffix), Join(outDir, nb + HtmlSuffix)},
                    [Renamed(nb + HtmlSuffix, na + HtmlSuffix), Renamed(fb, nb + HtmlSuffix)])
  {
    var x, y, z := Join(outDir, na + HtmlSuffix), Join(outDir, nb + HtmlSuffix), Join(outDir, fb);
    var b := Entry(nb, fb);
    var st := Outcome({x, z}, [Renamed(nb + HtmlSuffix, na + HtmlSuffix)]);
    ChainedNames(na, nb, fb);
    assert WillRename(outDir, st.files, b);
    RenameEntryFrame(outDir, st, b);
    assert RenameEntry(outDir, st, b).files == {x, y};
  }

  /** The second pass of `ChainedEntriesSecondPass`, from the files the first one left. */
  lemma ChainedEntriesRerun(outDir: string, na: string, nb: string, fb: string)
    requires '/' !in nb && '/' !in fb && EndsWith(fb, HtmlSuffix)
    requires na != nb && fb != na + HtmlSuffix && fb != nb + HtmlSuffix
    ensures RenameAll(outDir, Outcome({Join(outDir, na + HtmlSuffix), Join(outDir, nb + HtmlSuffix)}, []),
                      [Entry(na, nb + HtmlSuffix), Entry(nb, fb)])
         == Outcome({Join(outDir, na + HtmlSuffix)}, [Renamed(nb + HtmlSuffix, na + HtmlSuffix)])
  {
    var x, y := Join(outDir, na + HtmlSuffix), Join(outDir, nb + HtmlSuffix);
    var a, b := Entry(na, nb + HtmlSuffix), Entry(nb, fb);
    var t0 := Outcome({x, y}, []);
    ChainedNames(na, nb, fb);
    var t1 := RenameEntry(outDir, t0, a);
    assert WillRename(outDir, t0.files, a);
    assert t1.files == {x};
    assert !WillRename(outDir, t1.files, b);
    TwoEntries(outDir, t0, a, b);
  }

  /** The concrete instance: with `{a: "b.html", b: "c.html"}` the first
      pass turns `b.html` into `a.html` and `c.html` into `b.html`; the
      second moves that `b.html` onto `a.html`. */
  lemma SecondPassNotIdempotent()
    ensures var keyMap := Object([Entry("a", "b.html"), Entry("b", "c.html")]);
      var first := WriteBundle(keyMap, None, None, {Join("dist", "b.html"), Join("dist", "c.html")});
      var second := WriteBundle(keyMap, None, None, first.files);
      && !ChainFree(keyMap.entries)
      && first == Outcome({Join("dist", "a.html"), Join("dist", "b.html")}, [Renamed("b.html", "a.html"), Renamed("c.html", "b.html")])
      && second == Outcome({Join("dist", "a.html")}, [Renamed("b.html", "a.html")])
  {
    assert "a" + HtmlSuffix == "a.html" && "b" + HtmlSuffix == "b.html";
    assert "c.html"[|"c.html"| - |HtmlSuffix|..] == HtmlSuffix;
    assert "c.html"[0] != "a.html"[0] && "c.html"[0] != "b.html"[0];
    assert ResolveOutDir(None, None) == "dist";
    ChainedEntriesSecondPass("dist", "a", "b", "c.html");
  }

  /** An entry whose source is a bare `.html` file name is emitted under that name. */
  lemma PlainHtmlSource(name: string, file: string)
    requires '/' !in file && EndsWith(file, HtmlSuffix)
    ensures IsHtmlEntry(Entry(name, file)) && OriginalName(Entry(name, file)) == file
  {
    BasenameOfPlainName(file);
  }

  /** A name without a separator is its own basename. */
  lemma {:induction false} BasenameOfPlainName(name: string)
    requires '/' !in name
    ensures Basename(name) == name
    decreases |name|
  {
    if |name| > 0 {
      var init := name[..|name| - 1];
      assert '/' !in init by {
        forall i | 0 <= i < |init|
          ensures init[i] != '/'
        {
          assert init[i] == name[i];
        }
      }
      BasenameOfPlainName(init);
      BasenameOfSnoc(name);
      assert init + [name[|name| - 1]] == name;
    }
  }

  /** A pass over two entries is their two steps in order. */
  lemma TwoEntries(outDir: string, st: Outcome, a: Entry, b: Entry)
    ensures RenameAll(outDir, st, [a, b]) == RenameEntry(outDir, RenameEntry(outDir, st, a), b)
  {
    var mid := RenameEntry(outDir, st, a);
    assert [a, b][0] == a && [a, b][1..] == [b];
    assert RenameAll(outDir, st, [a, b]) == RenameAll(outDir, mid, [b]);
    assert [b][0] == b && [b][1..] == [];
    assert RenameAll(outDir, mid, [b]) == RenameAll(outDir, RenameEntry(outDir, mid, b), []);
  }

  /** A string option behaves exactly as the one-entry mapping from that
      string to `index.html`. */
  lemma StringOptionIsIndexMapping(name: string, config: Option<HostConfig>, dir: Option<string>, files: set<Path>)
    ensures WriteBundle(Str(name), config, dir, files)
         == WriteBundle(Object([Entry(name, "index.html")]), config, dir, files)
  {
  }

  /** When the option normalises to a mapping, the host's input is never
      consulted: any two configurations with the same output directory give
      the same result. */
  lemma ExplicitMappingIgnoresHostInput(keyMap: JsValue, c1: Option<HostConfig>, c2: Option<HostConfig>,
                                        dir: Option<string>, files: set<Path>)
    requires keyMap.Str? || IsObject(keyMap)
    requires ResolveOutDir(dir, c1) == ResolveOutDir(dir, c2)
    ensures WriteBundle(keyMap, c1, dir, files) == WriteBundle(keyMap, c2, dir, files)
  {
  }

  /** Without a usable option the host's input decides: an explicit mapping
      and a host input holding the same entries give the same result. */
  lemma HostInputUsedWithoutOption(keyMap: JsValue, input: JsValue, outDir: string, files: set<Path>)
    requires !keyMap.Str? && !IsObject(keyMap)
    requires IsObject(input)
    ensures WriteBundle(keyMap, Some(HostConfig(outDir, input)), Some(outDir), files)
         == WriteBundle(input, None, Some(outDir), files)
  {
  }

  /** A host input that is not an object (a single string, `undefined`)
      leaves the files alone and logs nothing. */
  lemma NonObjectHostInputIsNoOp(keyMap: JsValue, config: HostConfig, dir: Option<string>, files: set<Path>)
    requires !keyMap.Str? && !IsObject(keyMap)
    requires !IsObject(config.input)
    ensures WriteBundle(keyMap, Some(config), dir, files) == Outcome(files, [])
  {
  }

  /** Option `"home"`: `dist/index.html` becomes `dist/home.html`. */
  lemma ScenarioStringOption()
    ensures WriteBundle(Str("home"), None, None, {Join("dist", "index.html")})
         == Outcome({Join("dist", "home.html")}, [Renamed("index.html", "home.html")])
  {
    assert "home" + ".html" == "home.html";
    assert "index.html"[0] != "home.html"[0];
    EmittedFileRenamed("dist", "home", "index.html");
  }

  /** Option `{about: "src/about.html"}`: the emitted name already matches. */
  lemma ScenarioNameAlreadyMatches()
    ensures WriteBundle(Object([Entry("about", "src/about.html")]), None, None, {Join("dist", "about.html")})
         == Outcome({Join("dist", "about.html")}, [])
  {
    var e := Entry("about", "src/about.html");
    AboutIsEmittedUnderItsName();
    assert !WillRename("dist", {Join("dist", "about.html")}, e);
    OneEntry("dist", Outcome({Join("dist", "about.html")}, []), e);
  }

  /** The entry `about` built from `src/about.html` is emitted as `about.html`, its own target. */
  lemma AboutIsEmittedUnderItsName()
    ensures OriginalName(Entry("about", "src/about.html")) == NewName(Entry("about", "src/about.html")) == "about.html"
  {
    assert "src/" + "about.html" == "src/about.html";
    NestedHtmlSource("about", "src/", "about.html");
    assert "about" + ".html" == "about.html";
  }

  /** Option `{login: "src/login.htm"}`: not an `.html` source, nothing happens. */
  lemma ScenarioNonHtmlSource(files: set<Path>)
    ensures WriteBundle(Object([Entry("login", "src/login.htm")]), None, None, files) == Outcome(files, [])
  {
    var e := Entry("login", "src/login.htm");
    assert !IsHtmlEntry(e) by { assert "src/login.htm"[|"src/login.htm"| - 5] != '.'; }
    OneEntry("dist", Outcome(files, []), e);
  }

  /** No option, host input `{main: "src/main.html"}` and `build.outDir`
      `"build"`: `build/main.html` already has its entry's name. */
  lemma ScenarioHostInputAlreadyNamed()
    ensures WriteBundle(Undefined, Some(HostConfig("build", Object([Entry("main", "src/main.html")]))), None,
                        {Join("build", "main.html")})
         == Outcome({Join("build", "main.html")}, [])
  {
    var main := Entry("main", "src/main.html");
    assert ResolveOutDir(None, Some(HostConfig("build", Object([main])))) == "build";
    SrcMainBasename();
    assert OriginalName(main) == NewName(main);
    OneEntry("build", Outcome({Join("build", "main.html")}, []), main);
  }

  /** Under the same configuration the option `{entry: "src/main.html"}`
      wins over the host's input and renames `build/main.html` to
      `build/entry.html`. */
  lemma ScenarioOptionOverridesHost()
    ensures WriteBundle(Object([Entry("entry", "src/main.html")]),
                        Some(HostConfig("build", Object([Entry("main", "src/main.html")]))), None,
                        {Join("build", "main.html")})
         == Outcome({Join("build", "entry.html")}, [Renamed("main.html", "entry.html")])
  {
    var entry := Entry("entry", "src/main.html");
    var files := {Join("build", "main.html")};
    assert ResolveOutDir(None, Some(HostConfig("build", Object([Entry("main", "src/main.html")])))) == "build";
    SrcMainBasename();
    assert IsHtmlEntry(entry);
    assert NewName(entry) == "entry.html";
    assert "main.html"[0] != "entry.html"[0];
    assert WillRename("build", files, entry);
    OneEntry("build", Outcome(files, []), entry);
  }

  /** The basename of the scenarios' source path. */
  lemma SrcMainBasename()
    ensures Basename("src/main.html") == "main.html"
  {
    assert "src/" + "main.html" == "src/main.html";
    BasenameAfterSlash("src/", "main.html");
  }

  /** An entry whose source is `.html` file `file` under directory prefix
      `dir` is emitted as `file`. */
  lemma NestedHtmlSource(name: string, dir: string, file: string)
    requires |dir| > 0 && dir[|dir| - 1] == '/'
    requires '/' !in file && EndsWith(file, HtmlSuffix)
    ensures IsHtmlEntry(Entry(name, dir + file)) && OriginalName(Entry(name, dir + file)) == file
  {
    BasenameAfterSlash(dir, file);
    assert (dir + file)[|dir + file| - |HtmlSuffix|..] == file[|file| - |HtmlSuffix|..];
  }

  /** A host input array `["page.html"]` yields the entry named `"0"`:
      `dist/page.html` becomes `dist/0.html`. */
  lemma ScenarioArrayHostInput()
    ensures WriteBundle(Undefined, Some(HostConfig("", Array(["page.html"]))), None, {Join("dist", "page.html")})
         == Outcome({Join("dist", "0.html")}, [Renamed("page.html", "0.html")])
  {
    var e := Entry("0", "page.html");
    var input := Array(["page.html"]);
    assert ResolveInput(Undefined, Some(HostConfig("", input))) == input;
    assert ResolveOutDir(None, Some(HostConfig("", input))) == "dist";
    assert Decimal(0) == "0";
    assert Entries(input) == [e];
    assert "0" + ".html" == "0.html";
    assert "page.html"[0] != "0.html"[0];
    EmittedFileRenamed("dist", "0", "page.html");
  }

  /** A single entry whose source is a bare `.html` file name, present in
      the output directory under a different name than its target, is renamed. */
  lemma EmittedFileRenamed(outDir: string, name: string, file: string)
    requires '/' !in file && EndsWith(file, HtmlSuffix) && file != name + HtmlSuffix
    ensures RenameAll(outDir, Outcome({Join(outDir, file)}, []), [Entry(name, file)])
         == Outcome({Join(outDir, name + HtmlSuffix)}, [Renamed(file, name + HtmlSuffix)])
  {
    var e := Entry(name, file);
    var st := Outcome({Join(outDir, file)}, []);
    BasenameOfPlainName(file);
    assert WillRename(outDir, st.files, e);
    OneEntry(outDir, st, e);
  }

  /** A pass over one entry is that entry's step. */
  lemma OneEntry(outDir: string, st: Outcome, e: Entry)
    ensures RenameAll(outDir, st, [e]) == RenameEntry(outDir, st, e)
  {
    assert [e][1..] == [];
  }

  /** The basename of `dir + name` is `name` when `dir` ends in a separator and `name` holds none. */
  lemma {:induction false} BasenameAfterSlash(dir: string, name: string)
    requires |dir| > 0 && dir[|dir| - 1] == '/'
    requires '/' !in name
    ensures Basename(dir + name) == name
    decreases |name|
  {
    if |name| == 0 {
      assert dir + name == dir;
    } else {
      var init := name[..|name| - 1];
      assert (dir + name)[..|dir + name| - 1] == dir + init;
      BasenameAfterSlash(dir, init);
      assert init + [name[|name| - 1]] == name;
    }
  }
}
