/**
 * The configuration of the Hugging Face sync plugin (hf_sync.py, `Config`):
 * a dataclass whose `__post_init__` refuses a configuration that names no
 * dataset at all, and fills in a missing Argilla dataset name and a missing
 * hub target from the names that were given.
 */
module HfSync {
  import opened Wrappers

  /** The Argilla task of the synced dataset. */
  datatype TaskType = TextClassification | TokenClassification | Text2Text

  /** The fields of a `Config`; an optional field that is not given is None. */
  datatype ConfigFields = ConfigFields(
    hfSource: Option<string>, hfTarget: Option<string>, hfToken: Option<string>,
    hfSplit: string, hfPushToHubFrequency: int,
    rgTask: TaskType, rgDataset: Option<string>, rgQuery: Option<string>,
    rgLabels: Option<set<string>>, rgMultiLabelDataset: Option<bool>,
    rgLogBatchSize: int, rgLoadBatchSize: int)

  /** The dataclass defaults. */
  const Defaults := ConfigFields(None, None, None, "train", 60, TextClassification, None, None, None, None, 200, 200)

  /** `__post_init__` raises `ValueError`. */
  datatype ConfigError = ValueError

  /** Python truthiness of an optional string: present and not empty. */
  predicate Truthy(o: Option<string>) {
    o.Some? && o.value != ""
  }

  /** Python's `a or b` on optional strings: a when it is truthy, else b. */
  function Or(a: Option<string>, b: Option<string>): (r: Option<string>)
    ensures Truthy(a) ==> r == a
    ensures !Truthy(a) ==> r == b
  {
    if Truthy(a) then a else b
  }

  /** `name.split("/")[-1]`: the part of the name after its last slash, or the
      whole name when it has none. */
  function LastSegment(name: string): (r: string)
    ensures '/' !in r
    ensures |r| <= |name| && name[|name| - |r|..] == r
    ensures |r| < |name| ==> name[|name| - |r| - 1] == '/'
    decreases |name|
  {
    if name == [] || name[|name| - 1] == '/' then []
    else
      var init := name[..|name| - 1];
      var r := LastSegment(init) + [name[|name| - 1]];
      assert name == init + [name[|name| - 1]];
      r
  }

  /** The segment is empty exactly when the name is empty or ends with a
      slash. */
  lemma LastSegmentEmpty(name: string)
    ensures LastSegment(name) == [] <==> name == [] || name[|name| - 1] == '/'
  {
  }

  /** A name without a slash is its own last segment. */
  lemma LastSegmentNoSlash(name: string)
    requires '/' !in name
    ensures LastSegment(name) == name
  {
    assert name[0..] == name;
  }

  /** `__post_init__` on the field values: the ValueError when no source,
      target or dataset name is given; otherwise the fields with the derived
      names and the token. */
  function PostInit(f: ConfigFields, envToken: Option<string>): (r: Result<ConfigFields, ConfigError>)
    ensures r.Err? <==> !(Truthy(f.hfSource) || Truthy(f.hfTarget) || Truthy(f.rgDataset))
    ensures r.Ok? ==> Truthy(r.value.hfTarget) && r.value.rgDataset.Some?
    ensures r.Ok? && Truthy(f.rgDataset) ==> r.value.rgDataset == f.rgDataset
    ensures r.Ok? && !Truthy(f.rgDataset) ==> '/' !in r.value.rgDataset.value
    ensures r.Ok? && Truthy(f.hfTarget) ==> r.value.hfTarget == f.hfTarget
    ensures r.Ok? && Truthy(f.hfToken) ==> r.value.hfToken == f.hfToken
    ensures r.Ok? && !Truthy(f.hfToken) ==> r.value.hfToken == envToken
    ensures r.Ok? ==> r.value.(rgDataset := f.rgDataset, hfTarget := f.hfTarget, hfToken := f.hfToken) == f
  {
    if !(Truthy(f.hfSource) || Truthy(f.hfTarget) || Truthy(f.rgDataset)) then Err(ValueError)
    else
      var rgDataset := if Truthy(f.rgDataset) then f.rgDataset else Some(LastSegment(Or(f.hfTarget, f.hfSource).value));
      var hfTarget := if Truthy(f.hfTarget) then f.hfTarget else Or(f.hfSource, rgDataset);
      Ok(f.(rgDataset := rgDataset, hfTarget := hfTarget, hfToken := Or(f.hfToken, envToken)))
  }

  /** A missing dataset name is the last segment of the hub target, or of the
      hub source when there is no target. */
  lemma DerivedDatasetName(f: ConfigFields, envToken: Option<string>)
    requires PostInit(f, envToken).Ok? && !Truthy(f.rgDataset)
    ensures Truthy(f.hfTarget) ==> PostInit(f, envToken).value.rgDataset == Some(LastSegment(f.hfTarget.value))
    ensures !Truthy(f.hfTarget) ==> PostInit(f, envToken).value.rgDataset == Some(LastSegment(f.hfSource.value))
  {
  }

  /** A missing hub target is the hub source, or, when there is none, the
      dataset name that was given. */
  lemma DerivedTarget(f: ConfigFields, envToken: Option<string>)
    requires PostInit(f, envToken).Ok? && !Truthy(f.hfTarget)
    ensures Truthy(f.hfSource) ==> PostInit(f, envToken).value.hfTarget == f.hfSource
    ensures !Truthy(f.hfSource) ==> PostInit(f, envToken).value.hfTarget == f.rgDataset
  {
  }

  /** A configuration that `__post_init__` has already completed is left as it
      is by a second run. */
  lemma PostInitIdempotent(f: ConfigFields, envToken: Option<string>)
    requires PostInit(f, envToken).Ok?
    ensures PostInit(PostInit(f, envToken).value, envToken) == PostInit(f, envToken)
  {
    var g := PostInit(f, envToken).value;
    if !Truthy(f.rgDataset) && !Truthy(f.hfTarget) {
      assert g.hfTarget == f.hfSource;
    }
  }

  /** The configuration of the sync plugin, checked and completed in place by
      `__post_init__`. */
  class Config {
    var hfSource: Option<string>
    var hfTarget: Option<string>
    var hfToken: Option<string>
    var hfSplit: string
    var hfPushToHubFrequency: int
    var rgTask: TaskType
    var rgDataset: Option<string>
    var rgQuery: Option<string>
    var rgLabels: Option<set<string>>
    var rgMultiLabelDataset: Option<bool>
    var rgLogBatchSize: int
    var rgLoadBatchSize: int

    function Fields(): ConfigFields
      reads this
    {
      ConfigFields(hfSource, hfTarget, hfToken, hfSplit, hfPushToHubFrequency, rgTask, rgDataset, rgQuery,
                   rgLabels, rgMultiLabelDataset, rgLogBatchSize, rgLoadBatchSize)
    }

    /** The generated dataclass `__init__`: every field as given. */
    constructor (f: ConfigFields)
      ensures Fields() == f
    {
      hfSource, hfTarget, hfToken := f.hfSource, f.hfTarget, f.hfToken;
      hfSplit, hfPushToHubFrequency := f.hfSplit, f.hfPushToHubFrequency;
      rgTask, rgDataset, rgQuery := f.rgTask, f.rgDataset, f.rgQuery;
      rgLabels, rgMultiLabelDataset := f.rgLabels, f.rgMultiLabelDataset;
      rgLogBatchSize, rgLoadBatchSize := f.rgLogBatchSize, f.rgLoadBatchSize;
    }

    /** `__post_init__`: raises before touching any field, or completes the
      fields in place; the `HF_TOKEN` environment variable is a parameter. */
    method PostInitInPlace(envToken: Option<string>) returns (error: Option<ConfigError>)
      modifies this
      ensures error.Some? <==> PostInit(old(Fields()), envToken).Err?
      ensures error.Some? ==> Fields() == old(Fields())
      ensures error.None? ==> Fields() == PostInit(old(Fields()), envToken).value
    {
      if !(Truthy(hfSource) || Truthy(hfTarget) || Truthy(rgDataset)) {
        return Some(ValueError);
      }
      if !Truthy(rgDataset) {
        var datasetName := Or(hfTarget, hfSource);
        rgDataset := Some(LastSegment(datasetName.value));
      }
      if !Truthy(hfTarget) {
        hfTarget := Or(hfSource, rgDataset);
      }
      hfToken := Or(hfToken, envToken);
      return None;
    }
  }

  /** `Config(...)`: the dataclass built from the given fields, or the
      ValueError its `__post_init__` raises. */
  method NewConfig(f: ConfigFields, envToken: Option<string>) returns (r: Result<Config, ConfigError>)
    ensures r.Err? <==> PostInit(f, envToken).Err?
    ensures r.Ok? ==> fresh(r.value) && r.value.Fields() == PostInit(f, envToken).value
  {
    var c := new Config(f);
    var error := c.PostInitInPlace(envToken);
    if error.Some? {
      return Err(error.value);
    }
    return Ok(c);
  }

  /** With only a hub source "org/name", the dataset is called "name" and the
      target is the source. */
  lemma SourceOnlyExample()
    ensures PostInit(Defaults.(hfSource := Some("org/name")), None).Ok?
    ensures PostInit(Defaults.(hfSource := Some("org/name")), None).value.rgDataset == Some("name")
    ensures PostInit(Defaults.(hfSource := Some("org/name")), None).value.hfTarget == Some("org/name")
  {
    var name := "org/name";
    var r := LastSegment(name);
    assert r == name[4..];
  }

  /** Nothing given: the ValueError. */
  lemma NothingGivenFails(envToken: Option<string>)
    ensures PostInit(Defaults, envToken) == Err(ValueError)
  {
  }
}
