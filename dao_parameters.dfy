/** Persistence of the general configuration: the table is written as a
    list of {name, value} records, and read back into a table that must
    define the root directory (which must also exist), the HTTP port, the
    administration path and the administrator list; a missing one stops the
    server with a message naming the key and the file. */
module DaoParameters {
  import opened Wrappers
  import opened RecordLists

  /** JsonParam: one configuration entry. */
  datatype JsonParam = JsonParam(name: string, value: string)

  /** The records as (key, value) pairs. */
  function PairsOf(params: seq<JsonParam>): (pairs: seq<Pair>)
    ensures |pairs| == |params|
    ensures forall i :: 0 <= i < |params| ==> pairs[i] == (params[i].name, params[i].value)
  {
    seq(|params|, i requires 0 <= i < |params| => (params[i].name, params[i].value))
  }

  /** The file the configuration is stored in. */
  function ParamsFile(configpath: string): string
  {
    configpath + "/params.json"
  }

  /** The keys every stored configuration must define. */
  predicate HasRequiredKeys(configuration: map<string, string>)
  {
    && "root_directory" in configuration
    && "http_port" in configuration
    && "admin_path" in configuration
    && "admin_users" in configuration
  }

  /** The checks of ReadGeneralParameters on the table read from `filename`,
      in their order; `dirExists` stands for the os.Stat test of the root
      directory. */
  function CheckParameters(configMap: map<string, string>, filename: string, dirExists: string -> bool)
    : (r: Result<map<string, string>>)
    ensures r.Success? <==> HasRequiredKeys(configMap) && dirExists(configMap["root_directory"])
    ensures r.Success? ==> r.value == configMap
    ensures "root_directory" !in configMap ==> r == Failure("root_directory not defined in " + filename)
  {
    if "root_directory" !in configMap then Failure("root_directory not defined in " + filename)
    else if !dirExists(configMap["root_directory"]) then Failure("root directory not found")
    else if "http_port" !in configMap then Failure("http_port not defined in " + filename)
    else if "admin_path" !in configMap then Failure("admin_path not defined in " + filename)
    else if "admin_users" !in configMap then Failure("admin_users not defined in " + filename)
    else Success(configMap)
  }

  /** WriteGeneralParametersJson, up to the JSON encoding: one record per
      entry. */
  method WriteGeneralParameters(cfgmap: map<string, string>) returns (params: seq<JsonParam>)
    ensures Lists(PairsOf(params), cfgmap)
  {
    var pairs := Flatten(cfgmap);
    params := seq(|pairs|, i requires 0 <= i < |pairs| => JsonParam(pairs[i].0, pairs[i].1));
    assert PairsOf(params) == pairs;
  }

  /** ReadGeneralParameters, after the JSON decoding: the records are stored
      in turn into a table, which is then checked. */
  method ReadGeneralParameters(configpath: string, params: seq<JsonParam>, dirExists: string -> bool)
    returns (r: Result<map<string, string>>)
    ensures r == CheckParameters(Collected(PairsOf(params)), ParamsFile(configpath), dirExists)
  {
    var filename := ParamsFile(configpath);
    var configMap := Collect(PairsOf(params));
    if "root_directory" !in configMap {
      return Failure("root_directory not defined in " + filename);
    }
    if !dirExists(configMap["root_directory"]) {
      return Failure("root directory not found");
    }
    if "http_port" !in configMap {
      return Failure("http_port not defined in " + filename);
    }
    if "admin_path" !in configMap {
      return Failure("admin_path not defined in " + filename);
    }
    if "admin_users" !in configMap {
      return Failure("admin_users not defined in " + filename);
    }
    r := Success(configMap);
  }

  /** A configuration that defines the required keys, with an existing root
      directory, is read back unchanged from the records written for it. */
  lemma WrittenParametersReadBack(params: seq<JsonParam>, cfgmap: map<string, string>,
                                  configpath: string, dirExists: string -> bool)
    requires Lists(PairsOf(params), cfgmap)
    requires HasRequiredKeys(cfgmap) && dirExists(cfgmap["root_directory"])
    ensures CheckParameters(Collected(PairsOf(params)), ParamsFile(configpath), dirExists) == Success(cfgmap)
  {
    RoundTrip(PairsOf(params), cfgmap);
  }

  /** An empty record list never passes the checks. */
  lemma EmptyParametersRejected(configpath: string, dirExists: string -> bool)
    ensures CheckParameters(Collected(PairsOf([])), ParamsFile(configpath), dirExists) ==
      Failure("root_directory not defined in " + configpath + "/params.json")
  {
    assert PairsOf([]) == [];
  }
}
