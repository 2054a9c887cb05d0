/** The core configuration rules of esphome/core/config.py: project names,
    include-file extensions, library specifications, and the preload step
    that checks for exactly one target platform and rewrites an old-style
    `platform:` key into a platform block. */
module CoreConfig {
  import opened Wrappers

  datatype ConfigError =
    | ProjectNameNeedsNamespace
    | IncludeNotFound
    | InvalidIncludeExtension(ext: string)
    | EsphomeBlockInvalid
    | PlatformMissing
    | OldAndNewStyle(platform: string)
    | MultiplePlatforms(found: seq<string>)
    | LegacyOptionWithNewStyle(key: string, platform: string)

  // ---------------------------------------------------------------------
  // String helpers (Python's str.count, str.replace, `in`, str.split)
  // ---------------------------------------------------------------------

  function CountChar(s: string, c: char): (n: nat)
    ensures n <= |s|
    ensures n == 0 <==> c !in s
    ensures n == multiset(s)[c]
  {
    if s == [] then 0
    else
      assert s == [s[0]] + s[1..];
      (if s[0] == c then 1 else 0) + CountChar(s[1..], c)
  }

  /** `s.replace(from, to)` for single characters. */
  function ReplaceChar(s: string, from: char, to: char): (r: string)
    ensures |r| == |s|
    ensures forall i :: 0 <= i < |s| ==> r[i] == if s[i] == from then to else s[i]
  {
    if s == [] then [] else [if s[0] == from then to else s[0]] + ReplaceChar(s[1..], from, to)
  }

  /** Replacing one character by another leaves the count of a third alone. */
  lemma {:induction false} ReplaceKeepsCount(s: string, from: char, to: char, c: char)
    requires c != from && c != to
    ensures CountChar(ReplaceChar(s, from, to), c) == CountChar(s, c)
  {
    if s != [] {
      ReplaceKeepsCount(s[1..], from, to, c);
      assert ReplaceChar(s, from, to)[1..] == ReplaceChar(s[1..], from, to);
    }
  }

  /** `sub` occurs in `s` starting at position `j`. */
  predicate OccursAt(s: string, sub: string, j: nat)
    requires j + |sub| <= |s|
  {
    s[j..j + |sub|] == sub
  }

  /** `sub in s` for strings: `sub` occurs at some position of `s`. */
  function Contains(s: string, sub: string): (r: bool)
    ensures r <==> exists j: nat :: j + |sub| <= |s| && OccursAt(s, sub, j)
    decreases |s|
  {
    if |s| < |sub| then false
    else if s[..|sub|] == sub then
      assert OccursAt(s, sub, 0);
      true
    else
      var rest := Contains(s[1..], sub);
      assert !OccursAt(s, sub, 0);
      assert forall j: nat :: j + 1 + |sub| <= |s| ==> (OccursAt(s[1..], sub, j) <==> OccursAt(s, sub, j + 1));
      assert forall j: nat :: 1 <= j && j + |sub| <= |s| ==> (OccursAt(s, sub, j) <==> OccursAt(s[1..], sub, j - 1));
      rest
  }

  /** The index of the first `c` in `s`, where `s.split(c, 1)` cuts. */
  function IndexOf(s: string, c: char): (i: nat)
    requires c in s
    ensures i < |s| && s[i] == c && c !in s[..i]
  {
    if s[0] == c then 0 else 1 + IndexOf(s[1..], c)
  }

  /** The index of the last `c` in `s`, or -1 (`str.rfind`). */
  function LastIndexOf(s: string, c: char): (i: int)
    ensures -1 <= i < |s|
    ensures i >= 0 ==> s[i] == c
    ensures forall j :: i < j < |s| ==> s[j] != c
    decreases |s|
  {
    if s == [] then -1
    else if s[|s| - 1] == c then |s| - 1
    else LastIndexOf(s[..|s| - 1], c)
  }

  // ---------------------------------------------------------------------
  // valid_project_name
  // ---------------------------------------------------------------------

  /** A project name needs exactly one '.', between namespace and name;
      spaces become underscores. */
  function ValidProjectName(value: string): (r: Result<string, ConfigError>)
    ensures r.Err? <==> CountChar(value, '.') != 1
    ensures r.Err? ==> r.error == ProjectNameNeedsNamespace
    ensures r.Ok? ==> |r.value| == |value| && ' ' !in r.value
    ensures r.Ok? ==> forall i :: 0 <= i < |value| ==>
      r.value[i] == if value[i] == ' ' then '_' else value[i]
  {
    if CountChar(value, '.') != 1 then Err(ProjectNameNeedsNamespace)
    else Ok(ReplaceChar(value, ' ', '_'))
  }

  /** An accepted project name keeps its one dot, and accepting it again
      changes nothing. */
  lemma ProjectNameIsIdempotent(value: string)
    requires ValidProjectName(value).Ok?
    ensures CountChar(ValidProjectName(value).value, '.') == 1
    ensures ValidProjectName(ValidProjectName(value).value) == ValidProjectName(value)
  {
    var name := ValidProjectName(value).value;
    ReplaceKeepsCount(value, ' ', '_', '.');
    assert ReplaceChar(name, ' ', '_') == name;
  }

  // ---------------------------------------------------------------------
  // valid_include: the extension rule
  // ---------------------------------------------------------------------

  const ValidIncludeExts: set<string> := {".h", ".hpp", ".tcc", ".ino", ".cpp", ".c"}

  /** What the filesystem says about an include path (`cv.directory`,
      `cv.file_`). */
  datatype PathKind = Directory | File | Missing

  /** `os.path.splitext` on a POSIX path: the extension runs from the last
      '.' of the last path component, unless that component is nothing but
      dots up to it (a leading-dot name such as ".h" has no extension). */
  function SplitExt(p: string): (r: (string, string))
    ensures r.0 + r.1 == p
    ensures r.1 == [] || (r.1[0] == '.' && '.' !in r.1[1..] && '/' !in r.1)
    ensures r.1 != [] ==> exists j :: LastIndexOf(p, '/') + 1 <= j < |r.0| && p[j] != '.'
  {
    var sepIndex := LastIndexOf(p, '/');
    var dotIndex := LastIndexOf(p, '.');
    if dotIndex > sepIndex && exists j :: sepIndex + 1 <= j < dotIndex && p[j] != '.' then
      (p[..dotIndex], p[dotIndex..])
    else
      (p, "")
  }

  /** A directory is accepted as it is; a file only with one of the
      C/C++ source or header extensions; anything else is an error. */
  function ValidInclude(value: string, kind: PathKind): (r: Result<string, ConfigError>)
    ensures r.Ok? ==> r.value == value
    ensures kind == Directory ==> r.Ok?
    ensures kind == Missing ==> r == Err(IncludeNotFound)
    ensures kind == File ==> (r.Ok? <==> SplitExt(value).1 in ValidIncludeExts)
  {
    match kind
    case Directory => Ok(value)
    case Missing => Err(IncludeNotFound)
    case File =>
      var ext := SplitExt(value).1;
      if ext !in ValidIncludeExts then Err(InvalidIncludeExtension(ext)) else Ok(value)
  }

  /** Every accepted file ends in one of the valid extensions. */
  lemma AcceptedIncludeHasValidExtension(value: string)
    requires ValidInclude(value, File).Ok?
    ensures exists e :: e in ValidIncludeExts && |e| <= |value| && value[|value| - |e|..] == e
  {
    var (root, ext) := SplitExt(value);
    assert value[|root|..] == ext;
  }

  /** The last occurrence of `c` in `s + t`, when `t` has none. */
  lemma {:induction false} LastIndexOfPrefix(s: string, t: string, c: char)
    requires c !in t
    ensures LastIndexOf(s + t, c) == LastIndexOf(s, c)
    decreases |t|
  {
    if t != [] {
      assert (s + t)[..|s + t| - 1] == s + t[..|t| - 1];
      LastIndexOfPrefix(s, t[..|t| - 1], c);
    } else {
      assert s + t == s;
    }
  }

  /** `splitext` cuts `<stem><ext>` after the stem when `ext` is a single
      extension and the stem's last path component is not made only of
      dots. */
  lemma SplitExtAfterStem(stem: string, ext: string)
    requires |ext| >= 1 && ext[0] == '.' && '.' !in ext[1..] && '/' !in ext
    requires exists j :: 0 <= j < |stem| && stem[j] != '.' && '/' !in stem[j..]
    ensures SplitExt(stem + ext) == (stem, ext)
  {
    var p := stem + ext;
    LastIndexOfPrefix(stem, ext, '/');
    assert (stem + ".") + ext[1..] == p by { assert ext == "." + ext[1..]; }
    LastIndexOfPrefix(stem + ".", ext[1..], '.');
    assert LastIndexOf(stem + ".", '.') == |stem|;
    var j :| 0 <= j < |stem| && stem[j] != '.' && '/' !in stem[j..];
    forall k | j <= k < |stem|
      ensures stem[k] != '/'
    {
      assert stem[j..][k - j] == stem[k];
    }
    assert p[j] == stem[j];
    assert p[..|stem|] == stem && p[|stem|..] == ext;
  }

  /** A file named `<stem><ext>` with a valid extension is accepted when
      the stem's last path component has a character other than '.'
      (so "a..h" is accepted, while ".h", "x/.h" and "..h" are not split). */
  lemma ValidExtensionIsAccepted(stem: string, ext: string)
    requires ext in ValidIncludeExts
    requires exists j :: 0 <= j < |stem| && stem[j] != '.' && '/' !in stem[j..]
    ensures ValidInclude(stem + ext, File) == Ok(stem + ext)
  {
    assert ext[0] == '.' && '.' !in ext[1..] && '/' !in ext;
    SplitExtAfterStem(stem, ext);
  }

  // ---------------------------------------------------------------------
  // to_code: library specifications
  // ---------------------------------------------------------------------

  /** The arguments of `cg.add_library(name, version, repository)`. */
  datatype LibraryRef = LibraryRef(name: Option<string>, version: Option<string>, repository: Option<string>)

  /** The branch of `to_code` a library string takes: '@' splits name and
      version (checked first), a URL with '=' splits name and repository,
      a URL alone is a repository, anything else a plain name. */
  function ClassifyLibrary(lib: string): (r: LibraryRef)
    ensures r.version.Some? <==> '@' in lib
    ensures r.repository.Some? <==> '@' !in lib && Contains(lib, "://")
    ensures r.name.None? <==> '@' !in lib && Contains(lib, "://") && '=' !in lib
    ensures r.version.Some? ==> '@' !in r.name.value
    ensures r.repository.Some? && r.name.Some? ==> '=' !in r.name.value
  {
    if '@' in lib then
      var i := IndexOf(lib, '@');
      LibraryRef(Some(lib[..i]), Some(lib[i + 1..]), None)
    else if Contains(lib, "://") then
      if '=' in lib then
        var i := IndexOf(lib, '=');
        LibraryRef(Some(lib[..i]), None, Some(lib[i + 1..]))
      else
        LibraryRef(None, None, Some(lib))
    else
      LibraryRef(Some(lib), None, None)
  }

  /** The library string a `LibraryRef` came from. */
  function LibraryText(r: LibraryRef): string {
    if r.version.Some? then r.name.GetOr("") + "@" + r.version.value
    else if r.repository.Some? && r.name.Some? then r.name.value + "=" + r.repository.value
    else if r.repository.Some? then r.repository.value
    else r.name.GetOr("")
  }

  /** Classification loses nothing: the library string can be put back
      together from the arguments `to_code` passes on. */
  lemma ClassifyLibraryRoundTrip(lib: string)
    ensures LibraryText(ClassifyLibrary(lib)) == lib
  {
    if '@' in lib {
      var i := IndexOf(lib, '@');
      assert lib[..i] + "@" + lib[i + 1..] == lib;
    } else if Contains(lib, "://") && '=' in lib {
      var i := IndexOf(lib, '=');
      assert lib[..i] + "=" + lib[i + 1..] == lib;
    }
  }

  /** The library loop of `to_code`: one `add_library` call per entry, in
      order. */
  method AddLibraries(libs: seq<string>) returns (added: seq<LibraryRef>)
    ensures |added| == |libs|
    ensures forall i :: 0 <= i < |libs| ==> added[i] == ClassifyLibrary(libs[i])
  {
    added := [];
    for i := 0 to |libs|
      invariant |added| == i
      invariant forall j :: 0 <= j < i ==> added[j] == ClassifyLibrary(libs[j])
    {
      added := added + [ClassifyLibrary(libs[i])];
    }
  }

  // ---------------------------------------------------------------------
  // preload_core_config
  // ---------------------------------------------------------------------

  /** A configuration value: a scalar or a nested block. */
  datatype Value = Scalar(text: string) | Block(entries: map<string, Value>)

  /** The top-level configuration: block name to block. */
  type Config = map<string, Value>

  /** The target platforms that may have their own block. */
  const TargetPlatforms: seq<string> := ["esp32", "esp8266"]

  /** The old-style options that belong in the platform block, in the
      order the source checks them. */
  const LegacyOptions: seq<string> := ["esp8266_restore_from_flash", "board_flash_mode", "arduino_version", "board"]
  const LegacyKeys: set<string> := {LegacyOptions[0], LegacyOptions[1], LegacyOptions[2], LegacyOptions[3]}

  /** The preload schema accepts the esphome block: it is a block with a
      name and, if it has a `platform`, that names a target platform. */
  predicate EsphomeBlockValid(config: Config) {
    && "esphome" in config
    && config["esphome"].Block?
    && "name" in config["esphome"].entries
    && ("platform" in config["esphome"].entries ==>
          config["esphome"].entries["platform"].Scalar? &&
          config["esphome"].entries["platform"].text in TargetPlatforms)
  }

  function EsphomeBlock(config: Config): map<string, Value>
    requires EsphomeBlockValid(config)
  {
    config["esphome"].entries
  }

  predicate HasOldStyle(config: Config)
    requires EsphomeBlockValid(config)
  {
    "platform" in EsphomeBlock(config)
  }

  /** The target platforms among `ps` that have a block of their own. */
  function PresentIn(ps: seq<string>, config: Config): (found: seq<string>)
    ensures forall p :: p in found <==> p in ps && p in config
    ensures |found| <= |ps|
  {
    if ps == [] then []
    else (if ps[0] in config then [ps[0]] else []) + PresentIn(ps[1..], config)
  }

  /** `newstyle_found`: the platform blocks present, in platform order. */
  function NewStyleFound(config: Config): seq<string> {
    PresentIn(TargetPlatforms, config)
  }

  /** `newstyle_found` lists the platform blocks present in the order of
      `TARGET_PLATFORMS`, each once. */
  lemma NewStyleFoundInOrder(config: Config)
    ensures NewStyleFound(config) ==
      (if "esp32" in config then ["esp32"] else []) + (if "esp8266" in config then ["esp8266"] else [])
  {
    assert PresentIn(TargetPlatforms, config) ==
      (if "esp32" in config then ["esp32"] else []) + PresentIn(["esp8266"], config);
    assert PresentIn(["esp8266"], config) ==
      (if "esp8266" in config then ["esp8266"] else []) + PresentIn([], config);
  }

  /** Which platform blocks are found depends on nothing but which
      platform names are keys. */
  lemma {:induction false} PresentInDependsOnKeys(ps: seq<string>, c1: Config, c2: Config)
    requires forall p :: p in ps ==> (p in c1 <==> p in c2)
    ensures PresentIn(ps, c1) == PresentIn(ps, c2)
  {
    if ps != [] {
      PresentInDependsOnKeys(ps[1..], c1, c2);
    }
  }

  /** With one platform block and no other, that platform is what is found. */
  lemma OnlyPlatformFound(config: Config, plat: string)
    requires plat in TargetPlatforms && plat in config
    requires forall p :: p in TargetPlatforms && p != plat ==> p !in config
    ensures NewStyleFound(config) == [plat]
  {
    assert PresentIn(TargetPlatforms, config) ==
      (if "esp32" in config then ["esp32"] else []) + PresentIn(["esp8266"], config);
    assert PresentIn(["esp8266"], config) ==
      (if "esp8266" in config then ["esp8266"] else []) + PresentIn([], config);
    if plat == "esp32" {
      assert "esp8266" !in config;
    } else {
      assert "esp32" !in config;
    }
  }

  /** The first key of `keys` that `m` has, if any. */
  function FirstIn(keys: seq<string>, m: map<string, Value>): (r: Option<string>)
    ensures r.None? <==> forall k :: k in keys ==> k !in m
    ensures r.Some? ==>
      (exists i :: 0 <= i < |keys| && keys[i] == r.value && r.value in m &&
         (forall j :: 0 <= j < i ==> keys[j] !in m))
  {
    if keys == [] then None
    else if keys[0] in m then Some(keys[0])
    else
      var r := FirstIn(keys[1..], m);
      assert forall j :: 1 <= j < |keys| ==> keys[j] == keys[1..][j - 1];
      r
  }

  /** The esphome block with `build_path` defaulting to the name. */
  function WithBuildPath(conf: map<string, Value>): (r: map<string, Value>)
    requires "name" in conf
    ensures "build_path" in r
    ensures r["build_path"] == if "build_path" in conf then conf["build_path"] else conf["name"]
    ensures forall k :: k in conf ==> k in r && (k != "build_path" ==> r[k] == conf[k])
    ensures forall k :: k in r ==> k in conf || k == "build_path"
  {
    if "build_path" in conf then conf else conf["build_path" := conf["name"]]
  }

  /** The `framework` entry for an old-style `arduino_version`: type
      arduino, and the value under `version` when it parses as a version,
      under `source` otherwise. */
  function Framework(v: Value, isVersion: Value -> bool): (f: Value)
    ensures f.Block? && f.entries.Keys == {"type", if isVersion(v) then "version" else "source"}
    ensures f.entries["type"] == Scalar("arduino")
    ensures f.entries[if isVersion(v) then "version" else "source"] == v
  {
    Block(map["type" := Scalar("arduino"), (if isVersion(v) then "version" else "source") := v])
  }

  /** The platform block `m` after moving option `key` of `conf`, if
      present, to `target`. */
  function Moved(m: map<string, Value>, conf: map<string, Value>, key: string, target: string): map<string, Value> {
    if key in conf then m[target := conf[key]] else m
  }

  /** The platform block built from an old-style esphome block. */
  function PlatformBlock(conf: map<string, Value>, isVersion: Value -> bool): (m: map<string, Value>)
    ensures m.Keys <= {"restore_from_flash", "board_flash_mode", "framework", "board"}
    ensures "restore_from_flash" in m <==> "esp8266_restore_from_flash" in conf
    ensures "restore_from_flash" in m ==> m["restore_from_flash"] == conf["esp8266_restore_from_flash"]
    ensures "board_flash_mode" in m <==> "board_flash_mode" in conf
    ensures "board_flash_mode" in m ==> m["board_flash_mode"] == conf["board_flash_mode"]
    ensures "board" in m <==> "board" in conf
    ensures "board" in m ==> m["board"] == conf["board"]
    ensures "framework" in m <==> "arduino_version" in conf
    ensures "framework" in m ==> m["framework"] == Framework(conf["arduino_version"], isVersion)
  {
    var m1 := Moved(map[], conf, "esp8266_restore_from_flash", "restore_from_flash");
    var m2 := Moved(m1, conf, "board_flash_mode", "board_flash_mode");
    var m3 := if "arduino_version" in conf then m2["framework" := Framework(conf["arduino_version"], isVersion)] else m2;
    Moved(m3, conf, "board", "board")
  }

  /** What the preload step hands on: the rewritten configuration and
      `CORE.name`. */
  datatype Preloaded = Preloaded(config: Config, name: Value)

  /** The shape every configuration has after a successful preload: a
      valid esphome block with a build path, no `platform` key and no
      old-style option, and exactly one target platform block. */
  predicate NewStyle(config: Config) {
    && EsphomeBlockValid(config)
    && !HasOldStyle(config)
    && "build_path" in EsphomeBlock(config)
    && (forall k :: k in LegacyKeys ==> k !in EsphomeBlock(config))
    && |NewStyleFound(config)| == 1
  }

  /** The configuration handed on once the platform checks pass: an
      old-style esphome block `conf` loses `platform` and the old-style
      options, which move into a new block named by the platform. */
  function Converted(config: Config, conf: map<string, Value>, isVersion: Value -> bool): (r: Config)
    requires "platform" in conf ==> conf["platform"].Scalar?
    ensures r.Keys == config.Keys + {"esphome"} + (if "platform" in conf then {conf["platform"].text} else {})
    ensures "platform" !in conf ==> r["esphome"] == Block(conf)
    ensures "platform" in conf ==> r["esphome"].Block? && r["esphome"].entries.Keys !! {"platform"} + LegacyKeys
    ensures forall k :: k in config && k != "esphome" && ("platform" in conf ==> k != conf["platform"].text) ==>
      r[k] == config[k]
  {
    if "platform" in conf then
      config[conf["platform"].text := Block(PlatformBlock(conf, isVersion))]
            ["esphome" := Block(conf - ({"platform"} + LegacyKeys))]
    else
      config["esphome" := Block(conf)]
  }

  /** `preload_core_config`, as a function of the configuration. */
  function Preload(config: Config, isVersion: Value -> bool): (r: Result<Preloaded, ConfigError>)
    ensures !EsphomeBlockValid(config) <==> r == Err(EsphomeBlockInvalid)
    ensures r.Ok? ==> r.value.name == EsphomeBlock(config)["name"]
  {
    if !EsphomeBlockValid(config) then Err(EsphomeBlockInvalid)
    else
      var conf := WithBuildPath(EsphomeBlock(config));
      var found := NewStyleFound(config);
      if !HasOldStyle(config) && found == [] then Err(PlatformMissing)
      else if HasOldStyle(config) && found != [] then Err(OldAndNewStyle(conf["platform"].text))
      else if |found| > 1 then Err(MultiplePlatforms(found))
      else if found != [] && FirstIn(LegacyOptions, conf).Some? then
        Err(LegacyOptionWithNewStyle(FirstIn(LegacyOptions, conf).value, found[0]))
      else Ok(Preloaded(Converted(config, conf, isVersion), conf["name"]))
  }

  /** Each error of the preload step, and exactly when it is raised. */
  lemma PreloadRejects(config: Config, isVersion: Value -> bool)
    requires EsphomeBlockValid(config)
    ensures var r := Preload(config, isVersion);
      && (r == Err(PlatformMissing) <==> !HasOldStyle(config) && NewStyleFound(config) == [])
      && (r.Err? && r.error.OldAndNewStyle? <==> HasOldStyle(config) && NewStyleFound(config) != [])
      && (r.Err? && r.error.MultiplePlatforms? <==> !HasOldStyle(config) && |NewStyleFound(config)| > 1)
      && (r.Err? && r.error.LegacyOptionWithNewStyle? <==>
            !HasOldStyle(config) && |NewStyleFound(config)| == 1 &&
            exists k :: k in LegacyKeys && k in EsphomeBlock(config))
      && (r.Ok? <==>
            (HasOldStyle(config) && NewStyleFound(config) == []) ||
            (!HasOldStyle(config) && |NewStyleFound(config)| == 1 &&
             forall k :: k in LegacyKeys ==> k !in EsphomeBlock(config)))
  {
    var conf := WithBuildPath(EsphomeBlock(config));
    assert forall k :: k in LegacyKeys ==> (k in conf <==> k in EsphomeBlock(config));
    assert forall k :: k in LegacyOptions <==> k in LegacyKeys;
  }

  /** Converting an old-style block next to no platform block gives the
      new-style shape, with the platform block added beside the others. */
  lemma ConvertedOldStyle(config: Config, conf: map<string, Value>, isVersion: Value -> bool)
    requires "name" in conf && "build_path" in conf && "platform" in conf
    requires conf["platform"].Scalar? && conf["platform"].text in TargetPlatforms
    requires NewStyleFound(config) == []
    ensures var c := Converted(config, conf, isVersion);
      && NewStyle(c)
      && c.Keys == config.Keys + {conf["platform"].text, "esphome"}
      && c[conf["platform"].text] == Block(PlatformBlock(conf, isVersion))
      && EsphomeBlock(c) == conf - ({"platform"} + LegacyKeys)
      && (forall k :: k in config && k != "esphome" ==> c[k] == config[k])
  {
    var plat := conf["platform"].text;
    var c := Converted(config, conf, isVersion);
    assert plat !in config by { assert plat !in NewStyleFound(config); }
    assert EsphomeBlock(c) == conf - ({"platform"} + LegacyKeys);
    OnlyPlatformFound(c, plat);
  }

  /** A new-style configuration keeps its blocks; only the esphome block
      is replaced. */
  lemma ConvertedNewStyle(config: Config, conf: map<string, Value>, isVersion: Value -> bool)
    requires "name" in conf && "build_path" in conf && "platform" !in conf
    requires forall k :: k in LegacyKeys ==> k !in conf
    requires |NewStyleFound(config)| == 1
    ensures var c := Converted(config, conf, isVersion);
      && NewStyle(c)
      && c.Keys == config.Keys + {"esphome"}
      && EsphomeBlock(c) == conf
      && (forall k :: k in config && k != "esphome" ==> c[k] == config[k])
  {
    PresentInDependsOnKeys(TargetPlatforms, config, Converted(config, conf, isVersion));
  }

  /** A successful preload leaves the new-style shape, keeps every other
      block, and for an old-style input adds the platform block built from
      the old-style options. */
  lemma PreloadNormalForm(config: Config, isVersion: Value -> bool)
    requires Preload(config, isVersion).Ok?
    ensures var r := Preload(config, isVersion).value;
      && NewStyle(r.config)
      && (forall k :: k in config && k != "esphome" ==> k in r.config && r.config[k] == config[k])
    ensures var r := Preload(config, isVersion).value;
      HasOldStyle(config) ==>
        var conf := EsphomeBlock(config);
        && r.config.Keys == config.Keys + {conf["platform"].text}
        && r.config[conf["platform"].text] == Block(PlatformBlock(conf, isVersion))
        && EsphomeBlock(r.config) == WithBuildPath(conf) - ({"platform"} + LegacyKeys)
    ensures var r := Preload(config, isVersion).value;
      !HasOldStyle(config) ==>
        && r.config.Keys == config.Keys
        && EsphomeBlock(r.config) == WithBuildPath(EsphomeBlock(config))
  {
    var conf := WithBuildPath(EsphomeBlock(config));
    assert Preload(config, isVersion).value.config == Converted(config, conf, isVersion);
    if HasOldStyle(config) {
      ConvertedOldStyle(config, conf, isVersion);
    } else {
      ConvertedNewStyle(config, conf, isVersion);
    }
  }

  /** A configuration already in the new-style shape passes the preload
      step unchanged. */
  lemma NewStylePassesUnchanged(c: Config, isVersion: Value -> bool)
    requires NewStyle(c)
    ensures Preload(c, isVersion) == Ok(Preloaded(c, EsphomeBlock(c)["name"]))
  {
    var conf := EsphomeBlock(c);
    assert WithBuildPath(conf) == conf;
    assert FirstIn(LegacyOptions, conf).None?;
    assert Converted(c, conf, isVersion) == c;
  }

  /** Preloading a preloaded configuration changes nothing. */
  lemma PreloadIsIdempotent(config: Config, isVersion: Value -> bool)
    requires Preload(config, isVersion).Ok?
    ensures Preload(Preload(config, isVersion).value.config, isVersion) == Preload(config, isVersion)
  {
    var r := Preload(config, isVersion).value;
    PreloadNormalForm(config, isVersion);
    NewStylePassesUnchanged(r.config, isVersion);
    assert EsphomeBlock(r.config)["name"] == r.name;
  }

  /** One `if key in conf: plat_conf[target] = conf.pop(key)` step. */
  method MoveOption(platConf0: map<string, Value>, conf0: map<string, Value>, key: string, target: string)
    returns (platConf: map<string, Value>, conf: map<string, Value>)
    ensures platConf == Moved(platConf0, conf0, key, target)
    ensures conf == conf0 - {key}
  {
    platConf, conf := platConf0, conf0;
    if key in conf {
      platConf := platConf[target := conf[key]];
      conf := conf - {key};
    }
  }

  /** The `framework` block for an old-style `arduino_version`, filled in
      as the source does: first the type, then the version or source. */
  method ArduinoFramework(version: Value, isVersion: Value -> bool) returns (framework: Value)
    ensures framework == Framework(version, isVersion)
  {
    var entries: map<string, Value> := map["type" := Scalar("arduino")];
    if isVersion(version) {
      entries := entries["version" := version];
    } else {
      entries := entries["source" := version];
    }
    framework := Block(entries);
  }

  /** The old-style conversion: pop `platform` and each old-style option
      from the esphome block, moving the options into a platform block. */
  method MoveLegacyOptions(conf0: map<string, Value>, isVersion: Value -> bool)
    returns (platConf: map<string, Value>, conf: map<string, Value>)
    ensures platConf == PlatformBlock(conf0, isVersion)
    ensures conf == conf0 - ({"platform"} + LegacyKeys)
  {
    conf := conf0 - {"platform"};
    platConf := map[];
    platConf, conf := MoveOption(platConf, conf, "esp8266_restore_from_flash", "restore_from_flash");
    assert platConf == Moved(map[], conf0, "esp8266_restore_from_flash", "restore_from_flash");
    ghost var m1 := platConf;
    platConf, conf := MoveOption(platConf, conf, "board_flash_mode", "board_flash_mode");
    assert platConf == Moved(m1, conf0, "board_flash_mode", "board_flash_mode");
    assert conf == conf0 - {"platform", "esp8266_restore_from_flash", "board_flash_mode"};
    ghost var m2 := platConf;
    if "arduino_version" in conf {
      var framework := ArduinoFramework(conf["arduino_version"], isVersion);
      conf := conf - {"arduino_version"};
      platConf := platConf["framework" := framework];
    }
    assert platConf == if "arduino_version" in conf0
      then m2["framework" := Framework(conf0["arduino_version"], isVersion)] else m2;
    assert conf == conf0 - {"platform", "esp8266_restore_from_flash", "board_flash_mode", "arduino_version"};
    ghost var m3 := platConf;
    platConf, conf := MoveOption(platConf, conf, "board", "board");
    assert platConf == Moved(m3, conf0, "board", "board");
  }

  /** The old-style option check of a new-style configuration: the first
      old-style option, in the source's order, still in the esphome block. */
  method FindLegacyOption(conf: map<string, Value>, platform: string) returns (err: Option<ConfigError>)
    ensures err.None? <==> FirstIn(LegacyOptions, conf).None?
    ensures err.Some? ==> err.value == LegacyOptionWithNewStyle(FirstIn(LegacyOptions, conf).value, platform)
  {
    for i := 0 to |LegacyOptions|
      invariant forall j :: 0 <= j < i ==> LegacyOptions[j] !in conf
    {
      if LegacyOptions[i] in conf {
        return Some(LegacyOptionWithNewStyle(LegacyOptions[i], platform));
      }
    }
    return None;
  }

  /** `preload_core_config` as the source runs it: validate, default the
      build path, check the platform keys, then pop the old-style keys one
      by one into a new platform block. */
  method PreloadCoreConfig(config: Config, isVersion: Value -> bool) returns (r: Result<Preloaded, ConfigError>)
    ensures r == Preload(config, isVersion)
  {
    if !EsphomeBlockValid(config) {
      return Err(EsphomeBlockInvalid);
    }
    var conf := config["esphome"].entries;
    var name := conf["name"];
    if "build_path" !in conf {
      conf := conf["build_path" := name];
    }
    var hasOldstyle := "platform" in conf;
    var newstyleFound := NewStyleFound(config);
    if !hasOldstyle && newstyleFound == [] {
      return Err(PlatformMissing);
    }
    if hasOldstyle && newstyleFound != [] {
      return Err(OldAndNewStyle(conf["platform"].text));
    }
    if |newstyleFound| > 1 {
      return Err(MultiplePlatforms(newstyleFound));
    }
    if newstyleFound != [] {
      var err := FindLegacyOption(conf, newstyleFound[0]);
      if err.Some? {
        return Err(err.value);
      }
    }
    var result := config;
    if hasOldstyle {
      var plat := conf["platform"].text;
      var platConf;
      platConf, conf := MoveLegacyOptions(conf, isVersion);
      result := result[plat := Block(platConf)];
    }
    result := result["esphome" := Block(conf)];
    return Ok(Preloaded(result, name));
  }
}
