/**
 The HTML rename plugin: option normalisation at construction, and the
 `writeBundle` pass that resolves the entry mapping and the output directory
 and renames each emitted `<basename>.html` to `<entry name>.html`.

 The filesystem is a finite set of `Path`s, each a directory and a file
 name as `path.join` combines them; `existsSync` is membership and
 `renameSync` removes the old path and adds the new one (replacing a file
 already there, as POSIX rename does). Each `console.log` call appends one
 line to the outcome's log.
 */
module HtmlRename {
  import opened Wrappers
  import opened JsValues
  import opened Paths

  const HtmlSuffix := ".html"
  const DefaultSource := "index.html"
  const DefaultOutDir := "dist"

  /** The two fields of Vite's resolved configuration the pass reads:
      `build.outDir` and `build.rollupOptions.input`. The configuration
      captured by `configResolved` is passed to the pass as an
      `Option<HostConfig>`: `None` when that hook has not run. */
  datatype HostConfig = HostConfig(outDir: string, input: JsValue)

  /** One `console.log` call of the pass: the file `oldName` was renamed to `newName`. */
  datatype LogLine = Renamed(oldName: string, newName: string) {

    /** The text printed for this line: the word `Renamed`, the old name,
        the word `to` and the new name, separated by single spaces. */
    function Text(): (t: string)
      ensures |t| == |oldName| + |newName| + 12
      ensures t[..8] == "Renamed " && t[8..8 + |oldName|] == oldName
      ensures t[8 + |oldName|..12 + |oldName|] == " to " && t[12 + |oldName|..] == newName
    {
      "Renamed " + oldName + " to " + newName
    }
  }

  /** The state the pass transforms: the files on disk and the lines logged so far. */
  datatype Outcome = Outcome(files: set<Path>, log: seq<LogLine>)

  /** The plugin's construction-time `keyMap` normalisation: a string names
      the single entry built from `index.html`, an object (arrays included)
      is kept as it is, anything else becomes `undefined`. */
  function NormalizeKeyMap(keyMap: JsValue): (r: JsValue)
    ensures r == Undefined || IsObject(r)
    ensures Truthy(r) <==> r != Undefined
    ensures keyMap.Str? ==> r == Object([Entry(keyMap.s, DefaultSource)])
    ensures IsObject(keyMap) ==> r == keyMap
    ensures r == Undefined <==> !keyMap.Str? && !IsObject(keyMap)
  {
    if keyMap.Str? then Object([Entry(keyMap.s, DefaultSource)])
    else if IsObject(keyMap) then keyMap
    else Undefined
  }

  /** The host's build input when a configuration was captured, and
      `undefined` when the optional chain stops at a missing configuration. */
  function HostInput(config: Option<HostConfig>): (r: JsValue)
    ensures config.None? ==> r == Undefined
    ensures config.Some? ==> r == config.value.input
  {
    if config.Some? then config.value.input else Undefined
  }

  /** The entry mapping the pass works on: the normalised option when there
      is one, the host's input otherwise; the two are never merged. */
  function ResolveInput(keyMap: JsValue, config: Option<HostConfig>): (r: JsValue)
    ensures NormalizeKeyMap(keyMap) != Undefined ==> r == NormalizeKeyMap(keyMap) && IsObject(r)
    ensures NormalizeKeyMap(keyMap) == Undefined ==> r == HostInput(config)
  {
    Or(NormalizeKeyMap(keyMap), HostInput(config))
  }

  /** The output directory: the bundle option's directory, else the host's
      configured output directory, else the default. An empty string counts
      as absent at each level, so the result is never empty. */
  function ResolveOutDir(dir: Option<string>, config: Option<HostConfig>): (r: string)
    ensures r != ""
    ensures dir.Some? && dir.value != "" ==> r == dir.value
    ensures dir.GetOr("") == "" && config.Some? && config.value.outDir != "" ==> r == config.value.outDir
    ensures dir.GetOr("") == "" && (config.None? || config.value.outDir == "") ==> r == DefaultOutDir
  {
    if dir.Some? && dir.value != "" then dir.value
    else if config.Some? && config.value.outDir != "" then config.value.outDir
    else DefaultOutDir
  }

  /** Only entries whose source path ends in exactly `.html` are considered. */
  predicate IsHtmlEntry(e: Entry) {
    EndsWith(e.source, HtmlSuffix)
  }

  /** The name the bundler emitted the entry under: its source's basename. */
  function OriginalName(e: Entry): string {
    Basename(e.source)
  }

  /** The name the entry should have: `<entry name>.html`. */
  function NewName(e: Entry): string {
    e.name + HtmlSuffix
  }

  /** The condition under which the entry's file is renamed in directory `outDir`. */
  predicate WillRename(outDir: string, files: set<Path>, e: Entry) {
    && IsHtmlEntry(e)
    && Join(outDir, OriginalName(e)) in files
    && OriginalName(e) != NewName(e)
  }

  /** `renameSync(oldPath, newPath)` removes one file and adds one (replacing
      any file already at the new path): the number of files drops by one
      when the new path was taken, and stays the same otherwise. */
  lemma RenameSize(files: set<Path>, oldPath: Path, newPath: Path)
    requires oldPath in files && oldPath != newPath
    ensures newPath in files ==> |files - {oldPath} + {newPath}| == |files| - 1
    ensures newPath !in files ==> |files - {oldPath} + {newPath}| == |files|
  {
    var without := files - {oldPath};
    assert |without| == |files| - 1;
    if newPath in files {
      assert without + {newPath} == without;
    }
  }

  /** One iteration of the `forEach` over the entries. */
  function RenameEntry(outDir: string, st: Outcome, e: Entry): (r: Outcome)
    ensures !IsHtmlEntry(e) ==> r == st
    ensures !WillRename(outDir, st.files, e) ==> r == st
    ensures WillRename(outDir, st.files, e) ==>
      && Join(outDir, OriginalName(e)) !in r.files
      && Join(outDir, NewName(e)) in r.files
      && r.log == st.log + [Renamed(OriginalName(e), NewName(e))]
    ensures r.files != st.files <==> WillRename(outDir, st.files, e)
  {
    if IsHtmlEntry(e) then
      var originalName := OriginalName(e);
      var newName := NewName(e);
      var oldPath := Join(outDir, originalName);
      var newPath := Join(outDir, newName);
      if oldPath in st.files && originalName != newName then
        Outcome(st.files - {oldPath} + {newPath}, st.log + [Renamed(originalName, newName)])
      else st
    else st
  }

  /** Frame of one step: no file but the entry's emitted one disappears,
      and no file but its target appears. */
  lemma RenameEntryFrame(outDir: string, st: Outcome, e: Entry)
    ensures st.files - {Join(outDir, OriginalName(e))} <= RenameEntry(outDir, st, e).files
    ensures RenameEntry(outDir, st, e).files <= st.files + {Join(outDir, NewName(e))}
  {
  }

  /** The paths in `outDir` the entries' renames may remove. */
  function SourcePaths(outDir: string, entries: seq<Entry>): set<Path>
    decreases |entries|
  {
    if |entries| == 0 then {}
    else
      var here := if IsHtmlEntry(entries[0]) then {Join(outDir, OriginalName(entries[0]))} else {};
      here + SourcePaths(outDir, entries[1..])
  }

  /** The paths in `outDir` the entries' renames may create. */
  function TargetPaths(outDir: string, entries: seq<Entry>): set<Path>
    decreases |entries|
  {
    if |entries| == 0 then {}
    else
      var here := if IsHtmlEntry(entries[0]) then {Join(outDir, NewName(entries[0]))} else {};
      here + TargetPaths(outDir, entries[1..])
  }

  /** Every path a pass may touch lies in its output directory and is named
      after one of its `.html` entries: a source basename or a target name. */
  lemma {:induction false} TouchedPathsOfEntries(outDir: string, entries: seq<Entry>, p: Path)
    ensures p in SourcePaths(outDir, entries) ==>
      p.dir == outDir && exists e :: e in entries && IsHtmlEntry(e) && p.name == OriginalName(e)
    ensures p in TargetPaths(outDir, entries) ==>
      p.dir == outDir && exists e :: e in entries && IsHtmlEntry(e) && p.name == NewName(e)
    decreases |entries|
  {
    if |entries| > 0 {
      TouchedPathsOfEntries(outDir, entries[1..], p);
      assert entries[0] in entries;
      assert forall e :: e in entries[1..] ==> e in entries;
    }
  }

  /** The whole `forEach`: the entries are processed in order, each step
      seeing the files the earlier steps left. The log only grows, by at
      most one line per entry, and keeps what was logged before. */
  function RenameAll(outDir: string, st: Outcome, entries: seq<Entry>): (r: Outcome)
    ensures |st.log| <= |r.log| <= |st.log| + |entries|
    ensures r.log[..|st.log|] == st.log
    decreases |entries|
  {
    if |entries| == 0 then st
    else
      var mid := RenameEntry(outDir, st, entries[0]);
      var r := RenameAll(outDir, mid, entries[1..]);
      assert r.log[..|mid.log|] == mid.log;
      assert r.log[..|st.log|] == mid.log[..|st.log|];
      r
  }

  /** A rename never adds a file: each step keeps the count or, when it
      replaces an existing target, lowers it by one. */
  lemma {:induction false} RenameAllNeverAddsFiles(outDir: string, st: Outcome, entries: seq<Entry>)
    ensures |RenameAll(outDir, st, entries).files| <= |st.files|
    ensures |RenameAll(outDir, st, entries).files| >= |st.files| - |entries|
    decreases |entries|
  {
    if |entries| > 0 {
      var e := entries[0];
      if WillRename(outDir, st.files, e) {
        RenameSize(st.files, Join(outDir, OriginalName(e)), Join(outDir, NewName(e)));
      }
      RenameAllNeverAddsFiles(outDir, RenameEntry(outDir, st, e), entries[1..]);
    }
  }

  /** The only paths the pass can create are the targets of its `.html` entries. */
  lemma {:induction false} RenameAllCreatesOnlyTargets(outDir: string, st: Outcome, entries: seq<Entry>)
    ensures RenameAll(outDir, st, entries).files <= st.files + TargetPaths(outDir, entries)
    decreases |entries|
  {
    if |entries| > 0 {
      var e := entries[0];
      var mid := RenameEntry(outDir, st, e);
      RenameAllCreatesOnlyTargets(outDir, mid, entries[1..]);
      RenameEntryFrame(outDir, st, e);
      assert mid.files <= st.files + TargetPaths(outDir, entries);
    }
  }

  /** The only paths the pass can remove are the sources of its `.html` entries. */
  lemma {:induction false} RenameAllRemovesOnlySources(outDir: string, st: Outcome, entries: seq<Entry>)
    ensures st.files <= RenameAll(outDir, st, entries).files + SourcePaths(outDir, entries)
    decreases |entries|
  {
    if |entries| > 0 {
      var e := entries[0];
      var mid := RenameEntry(outDir, st, e);
      RenameAllRemovesOnlySources(outDir, mid, entries[1..]);
      RenameEntryFrame(outDir, st, e);
      if WillRename(outDir, st.files, e) {
        assert st.files <= mid.files + {Join(outDir, OriginalName(e))};
      }
      assert st.files <= mid.files + SourcePaths(outDir, entries);
    }
  }

  /** Processing `a + b` is processing `a`, then `b` from where `a` left off. */
  lemma {:induction false} RenameAllAppend(outDir: string, st: Outcome, a: seq<Entry>, b: seq<Entry>)
    ensures RenameAll(outDir, st, a + b) == RenameAll(outDir, RenameAll(outDir, st, a), b)
    decreases |a|
  {
    if |a| == 0 {
      assert a + b == b;
    } else {
      assert (a + b)[0] == a[0];
      assert (a + b)[1..] == a[1..] + b;
      RenameAllAppend(outDir, RenameEntry(outDir, st, a[0]), a[1..], b);
    }
  }

  /** Processing the first `i + 1` entries is processing the first `i`, then entry `i`. */
  lemma RenameAllStep(outDir: string, st: Outcome, entries: seq<Entry>, i: nat)
    requires i < |entries|
    ensures RenameAll(outDir, st, entries[..i + 1])
         == RenameEntry(outDir, RenameAll(outDir, st, entries[..i]), entries[i])
  {
    assert entries[..i + 1] == entries[..i] + [entries[i]];
    RenameAllAppend(outDir, st, entries[..i], [entries[i]]);
    assert [entries[i]][1..] == [];
  }

  /** Entry `i` contributes exactly one log line, naming its old and new
      file, when it renames, and none otherwise; so the log lists the
      renames one for one, in entry order. */
  lemma LogPerEntry(outDir: string, st: Outcome, entries: seq<Entry>, i: nat)
    requires i < |entries|
    ensures var before := RenameAll(outDir, st, entries[..i]);
      var after := RenameAll(outDir, st, entries[..i + 1]);
      && (WillRename(outDir, before.files, entries[i]) ==>
            after.log == before.log + [Renamed(OriginalName(entries[i]), NewName(entries[i]))])
      && (!WillRename(outDir, before.files, entries[i]) ==> after == before)
  {
    RenameAllStep(outDir, st, entries, i);
  }

  /** The `writeBundle` hook: resolve the mapping and the directory, then
      rename; a mapping that is not an object leaves everything as it is. */
  function WriteBundle(keyMap: JsValue, config: Option<HostConfig>, dir: Option<string>, files: set<Path>): (r: Outcome)
    ensures !IsObject(ResolveInput(keyMap, config)) ==> r == Outcome(files, [])
  {
    var input := ResolveInput(keyMap, config);
    var outDir := ResolveOutDir(dir, config);
    if IsObject(input) then RenameAll(outDir, Outcome(files, []), Entries(input))
    else Outcome(files, [])
  }

  /** The `forEach` over the entries as a loop, each iteration running the
      callback `RenameEntry` on the state the previous ones left. */
  method RenamePass(outDir: string, files: set<Path>, entries: seq<Entry>)
    returns (files': set<Path>, log: seq<LogLine>)
    ensures Outcome(files', log) == RenameAll(outDir, Outcome(files, []), entries)
    ensures |log| <= |entries|
  {
    var st := Outcome(files, []);
    var i := 0;
    while i < |entries|
      invariant 0 <= i <= |entries|
      invariant st == RenameAll(outDir, Outcome(files, []), entries[..i])
    {
      RenameAllStep(outDir, Outcome(files, []), entries, i);
      st := RenameEntry(outDir, st, entries[i]);
      i := i + 1;
    }
    assert entries[..i] == entries;
    files', log := st.files, st.log;
  }
}
