/**
 * Loading the configuration: the YAML document, once parsed, is projected
 * onto the three keys the program uses. Parsing itself is not modelled; the
 * parsed document is the input.
 */
module Config {
  import opened Wrappers

  /** A parsed YAML value. */
  datatype Value =
    | Null
    | Bool(b: bool)
    | Int(i: int)
    | Str(s: string)
    | List(items: seq<Value>)
    | Mapping(entries: map<string, Value>)

  const BlocklistKey := "feodotracker_ip_blocklist"
  const C2Key := "feodotracker_c2"
  const CountryKey := "country"

  /** The keys in the order the projection reads them. */
  const KeyOrder: seq<string> := [BlocklistKey, C2Key, CountryKey]
  const RequiredKeys: set<string> := {BlocklistKey, C2Key, CountryKey}

  /**
   * Why loading fails: indexing a document that is not a mapping (an empty
   * file parses to `None`) raises `TypeError`; a mapping without one of the
   * keys raises `KeyError` naming it.
   */
  datatype ConfigError = NotAMapping | MissingKey(key: string)

  /** The configuration the rest of the program reads: a mapping of three keys. */
  type LoadedConfig = map<string, Value>

  /**
   * `load_config` after parsing. The three keys are read in the order of the
   * keyword arguments, so the first absent one is the one reported.
   */
  function LoadConfig(doc: Value): (r: Result<LoadedConfig, ConfigError>)
    ensures r.Success? <==> doc.Mapping? && RequiredKeys <= doc.entries.Keys
    ensures r.Success? ==> r.value.Keys == RequiredKeys
    ensures r.Success? ==> forall k :: k in r.value ==> k in doc.entries && r.value[k] == doc.entries[k]
    ensures !doc.Mapping? ==> r == Failure(NotAMapping)
    ensures doc.Mapping? && r.Failure? ==>
      r.error.MissingKey? && r.error.key in RequiredKeys && r.error.key !in doc.entries
  {
    match doc
    case Mapping(m) =>
      if BlocklistKey !in m then
        Failure(MissingKey(BlocklistKey))
      else if C2Key !in m then
        Failure(MissingKey(C2Key))
      else if CountryKey !in m then
        Failure(MissingKey(CountryKey))
      else
        Success(map[BlocklistKey := m[BlocklistKey], C2Key := m[C2Key], CountryKey := m[CountryKey]])
    case _ =>
      Failure(NotAMapping)
  }

  /** The key reported missing is the first absent one in reading order. */
  lemma FirstAbsentKeyReported(m: map<string, Value>, i: nat)
    requires i < |KeyOrder|
    requires KeyOrder[i] !in m
    requires forall j :: 0 <= j < i ==> KeyOrder[j] in m
    ensures LoadConfig(Mapping(m)) == Failure(MissingKey(KeyOrder[i]))
  {
    if i > 0 {
      assert KeyOrder[0] in m;
    }
    if i > 1 {
      assert KeyOrder[1] in m;
    }
  }

  /** Keys other than the three are dropped and have no influence. */
  lemma ExtraKeyIgnored(m: map<string, Value>, k: string, v: Value)
    requires k !in RequiredKeys
    ensures LoadConfig(Mapping(m[k := v])) == LoadConfig(Mapping(m))
  {
  }

  /**
   * Writing the loaded configuration back as the whole document (the
   * rewrite of the configuration file after fetching) and loading it again
   * gives the same configuration.
   */
  lemma ReloadIsIdentity(doc: Value)
    requires LoadConfig(doc).Success?
    ensures LoadConfig(Mapping(LoadConfig(doc).value)) == LoadConfig(doc)
  {
    var c := LoadConfig(doc).value;
    var c' := LoadConfig(Mapping(c)).value;
    assert c'.Keys == c.Keys;
  }
}
