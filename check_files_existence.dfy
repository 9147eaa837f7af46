/** check_files_existence.py: every file config.json names must be in the input or mockup folder. */
module FilesExistence {
  import opened Common
  import opened Text
  import opened ConfigJson

  /** get_folder_files: the names of the regular files in a folder; none when it does not exist. */
  method GetFolderFiles(folder: Folder) returns (files: set<string>)
    ensures forall n :: n in files <==> folder.Some? && n in folder.value && folder.value[n] == RegularFile
  {
    files := {};
    if folder.Some? {
      var rest := folder.value.Keys;
      while rest != {}
        invariant rest <= folder.value.Keys
        invariant forall n :: n in files <==> n in folder.value.Keys - rest && folder.value[n] == RegularFile
        decreases rest
      {
        var n :| n in rest;
        if folder.value[n] == RegularFile {
          files := files + {n};
        }
        rest := rest - {n};
      }
    }
  }

  /** The names `for mockup in values` yields: the items of a list, the characters of a string,
      the keys of an object. None where Python raises: a value that cannot be iterated, or a list
      item that is not a string (see README). */
  function IteratedNames(values: Json): Option<set<string>>
  {
    match values
    case Array(items) =>
      if forall i :: 0 <= i < |items| ==> items[i].Str? then Some(set i | 0 <= i < |items| :: items[i].s)
      else None
    case Str(s) => Some(set i | 0 <= i < |s| :: [s[i]])
    case Object(fields) => Some(fields.Keys)
    case _ => None
  }

  /** load_config_mappings completes: every non-metadata value can be iterated. */
  ghost predicate Loadable(config: map<string, Json>)
  {
    forall k :: k in config && !IsMetadata(k) ==> IteratedNames(config[k]).Some?
  }

  /** The input files a config names: its keys, metadata keys left out. */
  ghost function ConfigInputs(config: map<string, Json>): set<string>
  {
    set k | k in config && !IsMetadata(k)
  }

  /** The mockup files a config names: the union of the non-metadata value lists. */
  ghost function ConfigMockups(config: map<string, Json>): set<string>
    requires Loadable(config)
  {
    set k, n | k in config && !IsMetadata(k) && n in IteratedNames(config[k]).value :: n
  }

  /** load_config_mappings on the parsed config. */
  method LoadConfigMappings(config: map<string, Json>) returns (r: Result<(set<string>, set<string>), string>)
    ensures r.Success? <==> Loadable(config)
    ensures r.Success? ==> r.value.0 == ConfigInputs(config) && r.value.1 == ConfigMockups(config)
  {
    var inputFiles: set<string> := {};
    var mockupFiles: set<string> := {};
    var rest := config.Keys;
    while rest != {}
      invariant rest <= config.Keys
      invariant forall k :: k in config.Keys - rest && !IsMetadata(k) ==> IteratedNames(config[k]).Some?
      invariant inputFiles == set k | k in config.Keys - rest && !IsMetadata(k)
      invariant mockupFiles == set k, n | k in config.Keys - rest && !IsMetadata(k)
                                          && n in IteratedNames(config[k]).value :: n
      decreases rest
    {
      var key :| key in rest;
      if !IsMetadata(key) {
        inputFiles := inputFiles + {key};
        var names := IteratedNames(config[key]);
        if names.None? {
          return Failure("TypeError");
        }
        mockupFiles := mockupFiles + names.value;
      }
      rest := rest - {key};
    }
    return Success((inputFiles, mockupFiles));
  }

  /** One kind of file compared both ways. */
  datatype Difference = Difference(missing: set<string>, extra: set<string>)

  /** What the config names but the folder lacks, and what the folder holds but the config omits. */
  function Compare(inConfig: set<string>, inFolder: set<string>): (d: Difference)
    ensures d.missing <= inConfig && d.extra <= inFolder && d.missing !! d.extra
    ensures forall f :: f in inConfig ==> (f in d.missing <==> f !in inFolder)
    ensures forall f :: f in inFolder ==> (f in d.extra <==> f !in inConfig)
  {
    Difference(inConfig - inFolder, inFolder - inConfig)
  }

  /** The result of check_files_existence, its console report left out. */
  datatype Existence = Existence(inputs: Difference, mockups: Difference, allGood: bool)

  /** all_good starts true and is cleared by each kind of missing file; extra files never clear it. */
  method AllGood(inputs: Difference, mockups: Difference) returns (allGood: bool)
    ensures allGood <==> inputs.missing == {} && mockups.missing == {}
  {
    allGood := true;
    if inputs.missing != {} {
      allGood := false;
    }
    if mockups.missing != {} {
      allGood := false;
    }
  }

  /** The regular files of a folder as a set (the specification of GetFolderFiles). */
  ghost function RegularFiles(folder: Folder): set<string>
  {
    if folder.None? then {} else set n | n in folder.value && folder.value[n] == RegularFile
  }

  /** check_files_existence on the two folders and the parsed config; a config that is not
      an object fails as `config.items()` does. */
  method CheckFilesExistence(inputFolder: Folder, mockupFolder: Folder, json: Json)
    returns (r: Result<Existence, string>)
    ensures r.Success? <==> json.Object? && Loadable(json.fields)
    ensures r.Success? ==>
      var config := json.fields;
      && r.value.inputs == Compare(ConfigInputs(config), RegularFiles(inputFolder))
      && r.value.mockups == Compare(ConfigMockups(config), RegularFiles(mockupFolder))
      && (r.value.allGood <==> ConfigInputs(config) <= RegularFiles(inputFolder)
                               && ConfigMockups(config) <= RegularFiles(mockupFolder))
  {
    var inputFilesInFolder := GetFolderFiles(inputFolder);
    var mockupFilesInFolder := GetFolderFiles(mockupFolder);
    if !json.Object? {
      return Failure("AttributeError");
    }
    var loaded := LoadConfigMappings(json.fields);
    if loaded.Failure? {
      return Failure(loaded.error);
    }
    var (inputFilesInConfig, mockupFilesInConfig) := loaded.value;
    var inputs := Compare(inputFilesInConfig, inputFilesInFolder);
    var mockups := Compare(mockupFilesInConfig, mockupFilesInFolder);
    var allGood := AllGood(inputs, mockups);
    return Success(Existence(inputs, mockups, allGood));
  }

  /** Passing the check depends only on the config's names being present: adding files to
      either folder never turns a passing check into a failing one. */
  lemma ExtraFilesNeverFail(config: map<string, Json>, inputs: set<string>, inputs': set<string>,
                            mockups: set<string>, mockups': set<string>)
    requires Loadable(config) && inputs <= inputs' && mockups <= mockups'
    requires Compare(ConfigInputs(config), inputs).missing == {}
    requires Compare(ConfigMockups(config), mockups).missing == {}
    ensures Compare(ConfigInputs(config), inputs').missing == {}
    ensures Compare(ConfigMockups(config), mockups').missing == {}
  {
    assert ConfigInputs(config) <= inputs;
    assert ConfigMockups(config) <= mockups;
  }

  /** The value stored under a metadata key is never read: changing or adding it leaves
      loading and both name sets as they were. */
  lemma MetadataIgnored(config: map<string, Json>, key: string, value: Json)
    requires IsMetadata(key)
    ensures Loadable(config[key := value]) <==> Loadable(config)
    ensures ConfigInputs(config[key := value]) == ConfigInputs(config)
    ensures Loadable(config) ==> ConfigMockups(config[key := value]) == ConfigMockups(config)
  {
    var c' := config[key := value];
    assert forall k :: k in c' && !IsMetadata(k) <==> k in config && !IsMetadata(k);
    assert forall k :: k in c' && !IsMetadata(k) ==> c'[k] == config[k];
    if Loadable(config) {
      assert Loadable(c');
      forall n ensures n in ConfigMockups(c') <==> n in ConfigMockups(config) {
        if n in ConfigMockups(c') {
          var k :| k in c' && !IsMetadata(k) && n in IteratedNames(c'[k]).value;
          assert k in config && n in IteratedNames(config[k]).value;
        }
        if n in ConfigMockups(config) {
          var k :| k in config && !IsMetadata(k) && n in IteratedNames(config[k]).value;
          assert k in c' && n in IteratedNames(c'[k]).value;
        }
      }
    }
  }
}
