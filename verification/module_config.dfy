/** The module configuration the driver builds: its defaults, and the
    key/value dispatch that reads a `llang.module` descriptor over them. */
module ModuleConfiguration {
  import opened Common

  datatype ModuleType = EXE | DLL | LIB

  datatype ModuleConfig = ModuleConfig(srcFolder: string, moduleName: string,
                                       moduleType: ModuleType, exportInfo: bool)

  /** `fs::canonical`, which resolves a path against the file system. */
  type Canonical = string -> string

  const SRC_FOLDER: string := "src_folder"
  const MODULE_NAME: string := "module_name"
  const EXPORT_MOD_INFO: string := "export_mod_info"
  const TYPE: string := "type"

  /** `path::filename()` of a directory path: its last component. */
  function LastComponent(path: string): (r: string)
    ensures '/' !in r
    ensures |r| <= |path| && r == path[|path| - |r|..]
    ensures '/' !in path ==> r == path
    ensures |r| < |path| ==> path[|path| - |r| - 1] == '/'
  {
    if path == [] then []
    else if path[|path| - 1] == '/' then []
    else LastComponent(path[..|path| - 1]) + [path[|path| - 1]]
  }

  /** The configuration used before the descriptor is read: the current
      directory is the source folder and its name the module name. */
  function DefaultConfig(currentDir: string): (c: ModuleConfig)
    ensures c.srcFolder == currentDir && c.moduleType == EXE && !c.exportInfo
    ensures c.moduleName == LastComponent(currentDir)
  {
    ModuleConfig(currentDir, LastComponent(currentDir), EXE, false)
  }

  /** A key token is cut at its first `:`. */
  function KeyOf(token: string): (key: string)
    ensures ':' !in key && key <= token
    ensures ':' !in token ==> key == token
    ensures ':' in token ==> |key| < |token| && token[|key|] == ':'
  {
    if token == [] || token[0] == ':' then []
    else [token[0]] + KeyOf(token[1..])
  }

  /** The module type a `type` value names, if any. */
  function TypeNamed(value: string): Option<ModuleType>
  {
    if value == "EXE" then Some(EXE)
    else if value == "DLL" then Some(DLL)
    else if value == "LIB" then Some(LIB)
    else None
  }

  /** One key/value pair applied to the configuration. An unknown module
      type is reported on the console and leaves the type unchanged. */
  function ApplyPair(c: ModuleConfig, keyToken: string, value: string, canonical: Canonical): (r: ModuleConfig)
    ensures r.srcFolder == if KeyOf(keyToken) == SRC_FOLDER then canonical(value) else c.srcFolder
    ensures r.moduleName == if KeyOf(keyToken) == MODULE_NAME then value else c.moduleName
    ensures r.exportInfo == if KeyOf(keyToken) == EXPORT_MOD_INFO then value == "true" else c.exportInfo
    ensures r.moduleType == if KeyOf(keyToken) == TYPE && TypeNamed(value).Some?
                            then TypeNamed(value).value else c.moduleType
  {
    assert SRC_FOLDER != MODULE_NAME && SRC_FOLDER != EXPORT_MOD_INFO && SRC_FOLDER != TYPE by {
      assert SRC_FOLDER[0] != MODULE_NAME[0] && SRC_FOLDER[0] != EXPORT_MOD_INFO[0] && SRC_FOLDER[0] != TYPE[0];
    }
    assert MODULE_NAME != EXPORT_MOD_INFO && MODULE_NAME != TYPE by {
      assert MODULE_NAME[0] != EXPORT_MOD_INFO[0] && MODULE_NAME[0] != TYPE[0];
    }
    assert EXPORT_MOD_INFO != TYPE by {
      assert EXPORT_MOD_INFO[0] != TYPE[0];
    }
    var key := KeyOf(keyToken);
    if key == SRC_FOLDER then c.(srcFolder := canonical(value))
    else if key == MODULE_NAME then c.(moduleName := value)
    else if key == EXPORT_MOD_INFO then c.(exportInfo := value == "true")
    else if key == TYPE then
      match TypeNamed(value)
      case Some(t) => c.(moduleType := t)
      case None => c
    else c
  }

  datatype Pair = Pair(key: string, value: string)

  /** How the descriptor's whitespace-separated tokens pair up: a key with
      no token after it is read with an empty value. */
  function PairsOf(tokens: seq<string>): (ps: seq<Pair>)
    ensures |ps| == (|tokens| + 1) / 2
    ensures forall i :: 0 <= i < |ps| ==> ps[i].key == tokens[2 * i]
    ensures forall i :: 0 <= i < |ps| && 2 * i + 1 < |tokens| ==> ps[i].value == tokens[2 * i + 1]
    ensures |tokens| % 2 == 1 ==> ps[|ps| - 1].value == ""
  {
    if tokens == [] then []
    else if |tokens| == 1 then [Pair(tokens[0], "")]
    else [Pair(tokens[0], tokens[1])] + PairsOf(tokens[2..])
  }

  function ApplyPairs(c: ModuleConfig, ps: seq<Pair>, canonical: Canonical): ModuleConfig
    decreases |ps|
  {
    if ps == [] then c else ApplyPairs(ApplyPair(c, ps[0].key, ps[0].value, canonical), ps[1..], canonical)
  }

  /** `parseModuleFile`: reads a key and a value per iteration until the
      tokens run out and applies each pair in order. */
  method ParseModuleFile(tokens: seq<string>, config: ModuleConfig, canonical: Canonical)
    returns (c: ModuleConfig)
    ensures c == ApplyPairs(config, PairsOf(tokens), canonical)
  {
    c := config;
    var i := 0;
    while i < |tokens|
      invariant 0 <= i <= |tokens|
      invariant ApplyPairs(c, PairsOf(tokens[i..]), canonical) == ApplyPairs(config, PairsOf(tokens), canonical)
    {
      var key := tokens[i];
      var value := "";
      if i + 1 < |tokens| {
        value := tokens[i + 1];
        assert tokens[i..][2..] == tokens[i + 2..];
        i := i + 2;
      } else {
        i := i + 1;
      }
      c := ApplyPair(c, key, value, canonical);
    }
  }

  // ---------------------------------------------------------------------
  // Properties

  /** The value of the last pair whose key is `key`. */
  function LastValue(ps: seq<Pair>, key: string): Option<string>
  {
    if ps == [] then None
    else
      match LastValue(ps[1..], key)
      case Some(v) => Some(v)
      case None => if KeyOf(ps[0].key) == key then Some(ps[0].value) else None
  }

  /** The module type of the last `type` pair naming a known type. */
  function LastModuleType(ps: seq<Pair>): Option<ModuleType>
  {
    if ps == [] then None
    else
      match LastModuleType(ps[1..])
      case Some(t) => Some(t)
      case None => if KeyOf(ps[0].key) == TYPE then TypeNamed(ps[0].value) else None
  }

  /** Every field ends up as the last pair for its key set it, or keeps its
      starting value when no pair sets it: later pairs override earlier
      ones, and unknown keys are ignored. */
  lemma {:induction false} LastPairWins(c: ModuleConfig, ps: seq<Pair>, canonical: Canonical)
    ensures ApplyPairs(c, ps, canonical).srcFolder ==
              (match LastValue(ps, SRC_FOLDER) case Some(v) => canonical(v) case None => c.srcFolder)
    ensures ApplyPairs(c, ps, canonical).moduleName ==
              (match LastValue(ps, MODULE_NAME) case Some(v) => v case None => c.moduleName)
    ensures ApplyPairs(c, ps, canonical).exportInfo ==
              (match LastValue(ps, EXPORT_MOD_INFO) case Some(v) => v == "true" case None => c.exportInfo)
    ensures ApplyPairs(c, ps, canonical).moduleType ==
              (match LastModuleType(ps) case Some(t) => t case None => c.moduleType)
    decreases |ps|
  {
    if ps != [] {
      var c' := ApplyPair(c, ps[0].key, ps[0].value, canonical);
      LastPairWins(c', ps[1..], canonical);
    }
  }

  /** A pair whose key is none of the four changes nothing. */
  lemma UnknownKeyIgnored(c: ModuleConfig, keyToken: string, value: string, canonical: Canonical)
    requires KeyOf(keyToken) !in {SRC_FOLDER, MODULE_NAME, EXPORT_MOD_INFO, TYPE}
    ensures ApplyPair(c, keyToken, value, canonical) == c
  {
  }

  /** A second pair for the same key overrides the first, except that an
      unknown module type keeps the earlier one. */
  lemma SecondPairOverrides(c: ModuleConfig, k1: string, v1: string, k2: string, v2: string, canonical: Canonical)
    requires KeyOf(k1) == KeyOf(k2)
    requires KeyOf(k2) == TYPE ==> TypeNamed(v2).Some?
    ensures ApplyPair(ApplyPair(c, k1, v1, canonical), k2, v2, canonical) == ApplyPair(c, k2, v2, canonical)
  {
  }

  /** The key text before the first `:` decides, so `module_name:` and
      `module_name` are the same key. */
  lemma ColonSuffixIgnored(c: ModuleConfig, suffix: string, value: string, canonical: Canonical)
    ensures ApplyPair(c, MODULE_NAME + ":" + suffix, value, canonical) == c.(moduleName := value)
  {
    var token := MODULE_NAME + ":" + suffix;
    assert token[|MODULE_NAME|] == ':';
    assert ':' !in MODULE_NAME;
    KeyOfPrefix(MODULE_NAME, ":" + suffix);
    assert token == MODULE_NAME + (":" + suffix);
  }

  /** Text without a colon followed by a colon is cut right there. */
  lemma {:induction false} KeyOfPrefix(key: string, rest: string)
    requires ':' !in key && rest != [] && rest[0] == ':'
    ensures KeyOf(key + rest) == key
  {
    if key != [] {
      assert (key + rest)[1..] == key[1..] + rest;
      KeyOfPrefix(key[1..], rest);
    } else {
      assert key + rest == rest;
    }
  }

  /** A descriptor whose last token is a key applies it with an empty
      value: a trailing `module_name` empties the module name. */
  lemma DanglingKey(c: ModuleConfig, tokens: seq<string>, canonical: Canonical)
    requires |tokens| % 2 == 0
    ensures ApplyPairs(c, PairsOf(tokens + [MODULE_NAME]), canonical).moduleName == ""
  {
    var ts := tokens + [MODULE_NAME];
    var ps := PairsOf(ts);
    var n := |ps| - 1;
    assert 2 * n == |tokens| && ts[2 * n] == MODULE_NAME;
    assert ps[n].key == MODULE_NAME && ps[n].value == "";
    assert ':' !in MODULE_NAME;
    LastValueOfLast(ps, MODULE_NAME);
    LastPairWins(c, ps, canonical);
  }

  /** The last pair's value is the last value of its own key. */
  lemma {:induction false} LastValueOfLast(ps: seq<Pair>, key: string)
    requires ps != [] && KeyOf(ps[|ps| - 1].key) == key
    ensures LastValue(ps, key) == Some(ps[|ps| - 1].value)
  {
    if |ps| > 1 {
      assert ps[1..][|ps[1..]| - 1] == ps[|ps| - 1];
      LastValueOfLast(ps[1..], key);
    }
  }
}
