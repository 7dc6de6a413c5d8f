/** The configuration loader's checks and its per-source merge
    (`ConfigLoader._validate_config`, `get_source_config`,
    `_prepare_channels_config`). The loaded YAML document is a `Py` value;
    reading the file is not modelled. */
module Config {
  import opened Wrappers
  import opened PyValues

  /** Whether a check passed, or the exception it raised. */
  datatype Outcome = Pass | Fail(error: PyError)

  /** The sections `common` must hold, in the order they are checked. */
  const RequiredCommon: seq<string> := ["system", "defaults"]

  /** One merged channel: exactly `url`, `category` and `max_news`. */
  datatype Channel = Channel(url: Py, category: Py, maxNews: Py)

  /** The merged configuration of one source: exactly `system`, `defaults`,
      `raw_prefix` and `rss_channels` (an ordered dict of channels). */
  datatype SourceConfig = SourceConfig(system: Py, defaults: Py, rawPrefix: Py, channels: seq<(string, Channel)>)

  /** `config.get('common', {})`. */
  function Common(config: Py): Py
    requires config.PyDict?
  {
    Lookup(config.entries, "common").GetOr(PyDict([]))
  }

  /** The outcome of checking `sections` in order against `common`: the first
      one missing raises ValueError naming it; `in` on a value that is not a
      container raises TypeError. */
  function CheckSections(common: Py, sections: seq<string>): Outcome {
    if sections == [] then Pass
    else match In(sections[0], common)
      case Err(e) => Fail(e)
      case Ok(false) => Fail(ValueError("common." + sections[0]))
      case Ok(true) => CheckSections(common, sections[1..])
  }

  /** What `_validate_config` does with a loaded document: the required
      `common` sections first, then `sources`, which must be a dict. A document
      that is not a dict has no `get` method. */
  function Validate(config: Py): Outcome {
    if !config.PyDict? then Fail(AttributeError("get"))
    else match CheckSections(Common(config), RequiredCommon)
      case Fail(e) => Fail(e)
      case Pass =>
        var sources := Lookup(config.entries, "sources");
        if sources.Some? && sources.value.PyDict? then Pass else Fail(ValueError("sources"))
  }

  /** `_validate_config`: a loop over the required sections with an early raise. */
  method ValidateConfig(config: Py) returns (r: Outcome)
    ensures r == Validate(config)
  {
    if !config.PyDict? {
      return Fail(AttributeError("get"));
    }
    var common := Common(config);
    for k := 0 to |RequiredCommon|
      invariant CheckSections(common, RequiredCommon) == CheckSections(common, RequiredCommon[k..])
    {
      var section := RequiredCommon[k];
      assert RequiredCommon[k..][1..] == RequiredCommon[k + 1..];
      match In(section, common)
      case Err(e) =>
        return Fail(e);
      case Ok(false) =>
        return Fail(ValueError("common." + section));
      case Ok(true) =>
    }
    var sources := Lookup(config.entries, "sources");
    if sources.Some? && sources.value.PyDict? {
      r := Pass;
    } else {
      r := Fail(ValueError("sources"));
    }
  }

  /** With `common` a dict, the document passes exactly when `common` holds
      `system` and `defaults` and `sources` is a dict; a missing `system` is
      reported before a missing `defaults`. */
  lemma ValidateDictCommon(config: Py)
    requires config.PyDict? && Common(config).PyDict?
    ensures var ks := Keys(Common(config).entries);
            Validate(config) == Pass <==>
              "system" in ks && "defaults" in ks && Lookup(config.entries, "sources").Some?
              && Lookup(config.entries, "sources").value.PyDict?
    ensures var ks := Keys(Common(config).entries);
            "system" !in ks ==> Validate(config) == Fail(ValueError("common.system"))
    ensures var ks := Keys(Common(config).entries);
            "system" in ks && "defaults" !in ks ==> Validate(config) == Fail(ValueError("common.defaults"))
  {
    var common := Common(config);
    assert RequiredCommon[0] == "system" && RequiredCommon[1..] == ["defaults"];
    assert RequiredCommon[1..][1..] == [];
    assert "common." + "system" == "common.system";
    assert "common." + "defaults" == "common.defaults";
    assert CheckSections(common, ["defaults"]) == match In("defaults", common)
      case Err(e) => Fail(e)
      case Ok(false) => Fail(ValueError("common.defaults"))
      case Ok(true) => CheckSections(common, []);
  }

  /** An absent `common` counts as empty, so validation fails on `system`. */
  lemma ValidateMissingCommon(config: Py)
    requires config.PyDict? && "common" !in Keys(config.entries)
    ensures Validate(config) == Fail(ValueError("common.system"))
  {
    assert Common(config) == PyDict([]);
    ValidateDictCommon(config);
  }

  /** `channel.get('max_news', default)`: the channel's own value when it has
      the key (even when that value is None), else the default. */
  function MaxNewsOf(channel: seq<(string, Py)>, default: Py): Py {
    Lookup(channel, "max_news").GetOr(default)
  }

  /** The merge of one channel. The dict literal is evaluated left to right,
      and the default `defaults['max_news']` is looked up eagerly, as an
      argument of `get`, even when the channel has its own `max_news`. */
  function PrepareOne(channel: Py, defaults: Py): Result<Channel, PyError> {
    match Index(channel, "url")
    case Err(e) => Err(e)
    case Ok(url) =>
      match Index(channel, "category")
      case Err(e) => Err(e)
      case Ok(category) =>
        match Index(defaults, "max_news")
        case Err(e) => Err(e)
        case Ok(default) => Ok(Channel(url, category, MaxNewsOf(channel.entries, default)))
  }

  /** The channels merged one after the other; the first failure is raised. */
  function PrepareAll(items: seq<(string, Py)>, defaults: Py): Result<seq<(string, Channel)>, PyError>
    decreases |items|
  {
    if items == [] then Ok([])
    else match PrepareAll(items[..|items| - 1], defaults)
      case Err(e) => Err(e)
      case Ok(done) =>
        match PrepareOne(items[|items| - 1].1, defaults)
        case Err(e) => Err(e)
        case Ok(c) => Ok(Assign(done, items[|items| - 1].0, c))
  }

  /** What `_prepare_channels_config(source_cfg)` returns or raises:
      `source_cfg['rss_channels']` must exist and be a dict (it needs `items`). */
  function PreparedChannels(sourceCfg: Py, defaults: Py): Result<seq<(string, Channel)>, PyError> {
    match Index(sourceCfg, "rss_channels")
    case Err(e) => Err(e)
    case Ok(PyDict(items)) => PrepareAll(items, defaults)
    case Ok(_) => Err(AttributeError("items"))
  }

  /** A failure merging the first channels is the failure of the whole merge. */
  lemma {:induction false} PrepareAllFailureSticks(items: seq<(string, Py)>, n: nat, defaults: Py)
    requires n <= |items| && PrepareAll(items[..n], defaults).Err?
    ensures PrepareAll(items, defaults) == PrepareAll(items[..n], defaults)
    decreases |items| - n
  {
    if n < |items| {
      assert items[..n + 1][..n] == items[..n];
      PrepareAllFailureSticks(items, n + 1, defaults);
    } else {
      assert items[..n] == items;
    }
  }

  /** `_prepare_channels_config`: the loop that fills `channels` in place. */
  method PrepareChannels(sourceCfg: Py, defaults: Py) returns (r: Result<seq<(string, Channel)>, PyError>)
    ensures r == PreparedChannels(sourceCfg, defaults)
  {
    var found := Index(sourceCfg, "rss_channels");
    if found.Err? {
      return Err(found.error);
    }
    if !found.value.PyDict? {
      return Err(AttributeError("items"));
    }
    var items := found.value.entries;
    var channels: seq<(string, Channel)> := [];
    for i := 0 to |items|
      invariant PrepareAll(items[..i], defaults) == Ok(channels)
    {
      assert items[..i + 1][..i] == items[..i];
      var name := items[i].0;
      var one := PrepareOne(items[i].1, defaults);
      if one.Err? {
        PrepareAllFailureSticks(items, i + 1, defaults);
        return Err(one.error);
      }
      channels := Assign(channels, name, one.value);
    }
    assert items[..|items|] == items;
    r := Ok(channels);
  }

  /** `c` is the merge of the raw channel `raw`: its own `url` and
      `category`, and its own `max_news` or else `defaults['max_news']`. */
  predicate ChannelMerged(raw: Py, c: Channel, defaults: Py) {
    && Index(raw, "url") == Ok(c.url)
    && Index(raw, "category") == Ok(c.category)
    && Index(defaults, "max_news").Ok?
    && c.maxNews == MaxNewsOf(raw.entries, Index(defaults, "max_news").value)
  }

  lemma PrepareOneMerged(raw: Py, defaults: Py)
    requires PrepareOne(raw, defaults).Ok?
    ensures ChannelMerged(raw, PrepareOne(raw, defaults).value, defaults)
  {
  }

  /** A successful merge keeps every channel name in its original order, and
      each merged channel is that channel's own `url`, `category` and
      `max_news`, or `defaults['max_news']` when the channel has none. */
  lemma {:induction false} PrepareAllKeepsChannels(items: seq<(string, Py)>, defaults: Py)
    requires DistinctKeys(items) && PrepareAll(items, defaults).Ok?
    ensures var merged := PrepareAll(items, defaults).value;
            && Keys(merged) == Keys(items)
            && forall i :: 0 <= i < |items| ==> ChannelMerged(items[i].1, merged[i].1, defaults)
    decreases |items|
  {
    if items != [] {
      var n := |items| - 1;
      var front := items[..n];
      assert DistinctKeys(front);
      PrepareAllKeepsChannels(front, defaults);
      PrepareOneMerged(items[n].1, defaults);
      assert items == front + [items[n]];
      MergeOneMore(front, PrepareAll(front, defaults).value, items[n].0, items[n].1,
                   PrepareOne(items[n].1, defaults).value, defaults);
    }
  }

  /** Merging one more channel, whose name is new, keeps the names in order
      and the earlier channels as they were. */
  lemma MergeOneMore(front: seq<(string, Py)>, done: seq<(string, Channel)>, name: string, raw: Py, c: Channel, defaults: Py)
    requires DistinctKeys(front + [(name, raw)])
    requires Keys(done) == Keys(front)
    requires forall i :: 0 <= i < |front| ==> ChannelMerged(front[i].1, done[i].1, defaults)
    requires ChannelMerged(raw, c, defaults)
    ensures var items := front + [(name, raw)];
            var merged := Assign(done, name, c);
            && Keys(merged) == Keys(items)
            && forall i :: 0 <= i < |items| ==> ChannelMerged(items[i].1, merged[i].1, defaults)
  {
    var items := front + [(name, raw)];
    var n := |front|;
    assert |done| == n;
    assert name !in Keys(front) by {
      forall j | 0 <= j < n ensures Keys(front)[j] != name {
        assert front[j] == items[j] && items[n].0 == name;
      }
    }
    AssignNew(done, name, c);
    var merged := Assign(done, name, c);
    assert Keys(items) == Keys(front) + [name];
    assert Keys(merged) == Keys(done) + [name];
    forall i | 0 <= i < |items|
      ensures ChannelMerged(items[i].1, merged[i].1, defaults)
    {
      if i < n {
        assert items[i] == front[i] && merged[i] == done[i];
      } else {
        assert items[i] == (name, raw) && merged[i] == (name, c);
      }
    }
  }

  /** What `get_source_config(name)` returns or raises, for a validated loader:
      KeyError for a source not under `sources`; otherwise the merge of
      `common.system`, `common.defaults`, the source's `raw_prefix` and its
      merged channels, evaluated in that order. */
  function GetSourceConfig(config: Py, name: string): (r: Result<SourceConfig, PyError>)
    requires Validate(config) == Pass
    ensures name !in Keys(Lookup(config.entries, "sources").value.entries) ==> r == Err(KeyError(name))
    ensures r.Ok? ==>
      var source := Lookup(Lookup(config.entries, "sources").value.entries, name);
      && source.Some?
      && Index(Common(config), "system") == Ok(r.value.system)
      && Index(Common(config), "defaults") == Ok(r.value.defaults)
      && Index(source.value, "raw_prefix") == Ok(r.value.rawPrefix)
      && PreparedChannels(source.value, r.value.defaults) == Ok(r.value.channels)
    ensures var source := Lookup(Lookup(config.entries, "sources").value.entries, name);
      r.Ok? <==>
        && source.Some?
        && Index(Common(config), "system").Ok?
        && Index(Common(config), "defaults").Ok?
        && Index(source.value, "raw_prefix").Ok?
        && PreparedChannels(source.value, Index(Common(config), "defaults").value).Ok?
    ensures var source := Lookup(Lookup(config.entries, "sources").value.entries, name);
      source.Some? && Index(Common(config), "system").Err? ==>
        r == Err(Index(Common(config), "system").error)
    ensures var source := Lookup(Lookup(config.entries, "sources").value.entries, name);
      source.Some? && Index(Common(config), "system").Ok? && Index(Common(config), "defaults").Err? ==>
        r == Err(Index(Common(config), "defaults").error)
    ensures var source := Lookup(Lookup(config.entries, "sources").value.entries, name);
      source.Some? && Index(Common(config), "system").Ok? && Index(Common(config), "defaults").Ok?
      && Index(source.value, "raw_prefix").Err? ==>
        r == Err(Index(source.value, "raw_prefix").error)
    ensures var source := Lookup(Lookup(config.entries, "sources").value.entries, name);
      source.Some? && Index(Common(config), "system").Ok? && Index(Common(config), "defaults").Ok?
      && Index(source.value, "raw_prefix").Ok?
      && PreparedChannels(source.value, Index(Common(config), "defaults").value).Err? ==>
        r == Err(PreparedChannels(source.value, Index(Common(config), "defaults").value).error)
  {
    var sources := Lookup(config.entries, "sources").value;
    match Lookup(sources.entries, name)
    case None => Err(KeyError(name))
    case Some(sourceCfg) =>
      var common := Common(config);
      match Index(common, "system")
      case Err(e) => Err(e)
      case Ok(system) =>
        match Index(common, "defaults")
        case Err(e) => Err(e)
        case Ok(defaults) =>
          match Index(sourceCfg, "raw_prefix")
          case Err(e) => Err(e)
          case Ok(rawPrefix) =>
            match PreparedChannels(sourceCfg, defaults)
            case Err(e) => Err(e)
            case Ok(channels) => Ok(SourceConfig(system, defaults, rawPrefix, channels))
  }

  /** On a validated document whose `common` is a dict, reading
      `common['system']` and `common['defaults']` cannot fail: a source that
      exists can then only fail on its own `raw_prefix` or channels. */
  lemma ValidatedCommonReadable(config: Py)
    requires Validate(config) == Pass && config.PyDict? && Common(config).PyDict?
    ensures Index(Common(config), "system").Ok? && Index(Common(config), "defaults").Ok?
  {
    ValidateDictCommon(config);
  }
}
