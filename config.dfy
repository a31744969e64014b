/** The required-field check of `load_config` in utils/config.py. Whether
    the file exists and what the YAML parser makes of it are inputs. */
module Config {
  import opened Wrappers

  /** What `yaml.safe_load` returns: a mapping (keys to values of any type
      V), or None for an empty document. */
  datatype Document<V> = Mapping(fields: map<string, V>) | EmptyDocument

  /** The exceptions `load_config` raises: FileNotFoundError, ValueError for
      a missing field, and the TypeError of `field not in None`. */
  datatype ConfigError = FileNotFound(path: string) | MissingField(field: string) | NotAMapping

  /** The required fields, in the order they are checked. */
  const Required: seq<string> := ["domain", "target_count", "personas", "rating_distribution",
                                  "models", "quality_thresholds", "review_length"]

  /** The first of `fields` that `config` lacks. */
  function FirstMissing<V>(fields: seq<string>, config: map<string, V>): (r: Option<nat>)
    ensures r.None? <==> forall i :: 0 <= i < |fields| ==> fields[i] in config
    ensures r.Some? ==> r.value < |fields| && fields[r.value] !in config
    ensures r.Some? ==> forall i :: 0 <= i < r.value ==> fields[i] in config
  {
    if |fields| == 0 then None
    else if fields[0] !in config then Some(0)
    else
      match FirstMissing(fields[1..], config)
      case None => None
      case Some(k) => Some(k + 1)
  }

  /** `load_config(path)`, given whether the path exists and what parsing
      it gives. */
  function LoadConfig<V>(path: string, fileExists: bool, document: Document<V>): Result<map<string, V>, ConfigError> {
    if !fileExists then Err(FileNotFound(path))
    else
      match document
      case EmptyDocument => Err(NotAMapping)
      case Mapping(config) =>
        match FirstMissing(Required, config)
        case None => Ok(config)
        case Some(i) => Err(MissingField(Required[i]))
  }

  /** A missing file is reported before anything is parsed or checked. */
  lemma MissingFileFirst<V>(path: string, document: Document<V>)
    ensures LoadConfig(path, false, document) == Err(FileNotFound(path))
  {
  }

  /** An existing file with a mapping loads exactly when all seven fields
      are present, and then the mapping comes back unchanged, extra keys
      included; otherwise the error names the first missing field in the
      order domain, target_count, personas, rating_distribution, models,
      quality_thresholds, review_length. */
  lemma LoadedIffComplete<V>(path: string, config: map<string, V>)
    ensures var r := LoadConfig(path, true, Mapping(config));
      && (r.Ok? <==> forall i :: 0 <= i < |Required| ==> Required[i] in config)
      && (r.Ok? ==> r.value == config)
      && (r.Err? ==>
            && r.error.MissingField?
            && exists i :: (0 <= i < |Required| && r.error.field == Required[i] && Required[i] !in config
                            && forall j :: 0 <= j < i ==> Required[j] in config))
  {
    match FirstMissing(Required, config)
    case None =>
    case Some(i) =>
      assert Required[i] !in config;
  }

  /** Keys beyond the seven never matter: adding one does not change
      whether loading succeeds or which field is reported missing. */
  lemma ExtraKeysIgnored<V>(path: string, config: map<string, V>, key: string, value: V)
    requires key !in Required
    ensures LoadConfig(path, true, Mapping(config[key := value])).Ok? == LoadConfig(path, true, Mapping(config)).Ok?
    ensures LoadConfig(path, true, Mapping(config)).Err? ==>
      LoadConfig(path, true, Mapping(config[key := value])) == LoadConfig(path, true, Mapping(config))
  {
    SameFirstMissing(Required, config, config[key := value]);
  }

  /** Two configs that agree on which of `fields` they hold miss the same
      first field. */
  lemma {:induction false} SameFirstMissing<V>(fields: seq<string>, a: map<string, V>, b: map<string, V>)
    requires forall i :: 0 <= i < |fields| ==> (fields[i] in a <==> fields[i] in b)
    ensures FirstMissing(fields, a) == FirstMissing(fields, b)
  {
    if |fields| > 0 && fields[0] in a {
      SameFirstMissing(fields[1..], a, b);
    }
  }
}
