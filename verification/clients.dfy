/**
 * Client configuration: `ClientConfig`, the module-wide default
 * configuration, and `BaseClient`, whose constructor deep-merges the
 * defaults and then the user's configuration into its `clientConfig` field
 * with lodash `merge`.
 */
module Clients {
  import opened Wrappers
  import opened Records

  /** A cache manager object; the model only needs its identity. */
  class CacheManager {
  }

  /** A property that may be missing (undefined), explicitly `null`, or set. */
  datatype Setting<T> = Unset | Null | Given(value: T)

  /** One entry of the `retry` package's operation options: a number or a flag. */
  datatype RetryOption = Number(n: int) | Flag(b: bool)

  /** `ClientConfig`: every property is optional; only the cache manager is ever `null`. */
  datatype ClientConfig = ClientConfig(
    baseUri: Option<string>,
    cacheManager: Setting<CacheManager>,
    headers: Option<Record<string>>,
    parameters: Option<Record<Option<string>>>,
    retrySettings: Option<Record<RetryOption>>)

  /** `{}` */
  const NoConfig: ClientConfig := ClientConfig(None, Unset, None, None, None)

  function DefaultHeaders(): Record<string>
  {
    FromPairs([("content-type", "application/json"), ("connection", "close")])
  }

  function DefaultParameters(): Record<Option<string>>
  {
    FromPairs([("version", Some("v1"))])
  }

  /**
   * `DEFAULT_CLIENT_CONFIG`: the shared cache manager created once for the
   * module, JSON content and a closed connection, API version v1.
   */
  function DefaultClientConfig(cache: CacheManager): ClientConfig
  {
    ClientConfig(None, Given(cache), Some(DefaultHeaders()), Some(DefaultParameters()), None)
  }

  /** lodash `merge` of one plain-object property whose values are never undefined. */
  function MergeRecord<V>(target: Option<Record<V>>, source: Option<Record<V>>): Option<Record<V>>
  {
    match source
    case None => target
    case Some(s) => Some(Assign(target.GetOr(Empty()), s))
  }

  /** lodash `merge` of one plain-object property whose values may be undefined. */
  function MergeOptional<V>(target: Option<Record<Option<V>>>, source: Option<Record<Option<V>>>): Option<Record<Option<V>>>
  {
    match source
    case None => target
    case Some(s) => Some(AssignDefined(target.GetOr(Empty()), s))
  }

  /**
   * `_.merge(target, source)` on configurations: an undefined source
   * property leaves the target's; `null` and strings replace it; a cache
   * manager, being a class instance, is taken by reference; plain objects
   * merge key by key.
   */
  function Merge(target: ClientConfig, source: ClientConfig): ClientConfig
  {
    ClientConfig(
      if source.baseUri.Some? then source.baseUri else target.baseUri,
      if source.cacheManager.Unset? then target.cacheManager else source.cacheManager,
      MergeRecord(target.headers, source.headers),
      MergeOptional(target.parameters, source.parameters),
      MergeRecord(target.retrySettings, source.retrySettings))
  }

  /** An undefined property, or an undefined parameter value, never overwrites what the target holds. */
  lemma MergeKeepsUndefined(target: ClientConfig, source: ClientConfig)
    ensures source.baseUri.None? ==> Merge(target, source).baseUri == target.baseUri
    ensures source.cacheManager.Unset? ==> Merge(target, source).cacheManager == target.cacheManager
    ensures source.headers.None? ==> Merge(target, source).headers == target.headers
    ensures source.retrySettings.None? ==> Merge(target, source).retrySettings == target.retrySettings
    ensures source.parameters.None? ==> Merge(target, source).parameters == target.parameters
    ensures forall k :: (source.parameters.Some? && target.parameters.Some? &&
      k in source.parameters.value.values && source.parameters.value.values[k].None? &&
      k in target.parameters.value.values) ==>
        Merge(target, source).parameters.value.values[k] == target.parameters.value.values[k]
  {
  }

  /**
   * The configuration a new client holds. Properties the user leaves
   * undefined come from the defaults; the default cache manager object is
   * shared unless the user gives one or `null`; headers, parameters and
   * retry settings are merged key by key over the defaults (names compared
   * exactly, not by case), with an undefined parameter keeping the default.
   */
  function Configured(cache: CacheManager, config: Option<ClientConfig>): (r: ClientConfig)
    ensures var user := config.GetOr(NoConfig);
      r.baseUri == user.baseUri &&
      r.cacheManager == (if user.cacheManager.Unset? then Given(cache) else user.cacheManager) &&
      r.retrySettings == user.retrySettings
    ensures var user := config.GetOr(NoConfig).headers.GetOr(Empty());
      r.headers.Some? &&
      r.headers.value.values == DefaultHeaders().values + user.values &&
      r.headers.value.keys == DefaultHeaders().keys + NewKeys(user.keys, DefaultHeaders().values)
    ensures var user := config.GetOr(NoConfig).parameters.GetOr(Empty());
      r.parameters.Some? &&
      r.parameters.value.values == DefaultParameters().values + DefinedOver(user.values, user.keys, DefaultParameters().values) &&
      r.parameters.value.keys == DefaultParameters().keys + NewKeys(user.keys, DefaultParameters().values)
  {
    var start := Merge(NoConfig, DefaultClientConfig(cache));
    MergedDefaults(cache);
    var r := Merge(start, config.GetOr(NoConfig));
    MergeOverDefaults(cache, config.GetOr(NoConfig));
    MergeIntoNothing(config.GetOr(NoConfig).retrySettings);
    r
  }

  /** Merging into an undefined property copies the source. */
  lemma MergeIntoNothing<V>(source: Option<Record<V>>)
    ensures MergeRecord(None, source) == source
  {
    if source.Some? {
      AssignIntoEmpty(source.value);
    }
  }

  lemma MergeOverDefaults(cache: CacheManager, user: ClientConfig)
    ensures var r := Merge(DefaultClientConfig(cache), user);
      var h := user.headers.GetOr(Empty());
      var p := user.parameters.GetOr(Empty());
      r.headers.Some? &&
      r.headers.value.values == DefaultHeaders().values + h.values &&
      r.headers.value.keys == DefaultHeaders().keys + NewKeys(h.keys, DefaultHeaders().values) &&
      r.parameters.Some? &&
      r.parameters.value.values == DefaultParameters().values + DefinedOver(p.values, p.keys, DefaultParameters().values) &&
      r.parameters.value.keys == DefaultParameters().keys + NewKeys(p.keys, DefaultParameters().values)
  {
  }

  /** A client built without a configuration holds the defaults, the shared cache manager included. */
  lemma DefaultsWithoutUserConfig(cache: CacheManager)
    ensures Configured(cache, None) == DefaultClientConfig(cache)
  {
    MergedDefaults(cache);
  }

  /** Merging the defaults into `{}` copies them. */
  lemma MergedDefaults(cache: CacheManager)
    ensures Merge(NoConfig, DefaultClientConfig(cache)) == DefaultClientConfig(cache)
  {
    AssignIntoEmpty(DefaultHeaders());
    AssignDefinedIntoEmpty(DefaultParameters());
  }

  /** Merging into `{}` copies the source. */
  lemma AssignIntoEmpty<V>(source: Record<V>)
    ensures Assign(Empty(), source) == source
  {
    AssignIntoEmptyKeys(source);
    AssignIntoEmptyValues(source);
    var r := Assign(Empty(), source);
    assert r.keys == source.keys && r.values == source.values;
  }

  lemma AssignIntoEmptyKeys<V>(source: Record<V>)
    ensures Assign(Empty(), source).keys == source.keys
  {
    NewKeysFresh<V>(source.keys, map[]);
  }

  lemma AssignIntoEmptyValues<V>(source: Record<V>)
    ensures Assign(Empty(), source).values == source.values
  {
    EmptyPlus(source.values);
  }

  lemma EmptyPlus<V>(m: map<string, V>)
    ensures map[] + m == m
  {
  }

  lemma AssignDefinedIntoEmpty<V>(source: Record<Option<V>>)
    ensures AssignDefined(Empty(), source) == source
  {
    AssignDefinedIntoEmptyKeys(source);
    AssignDefinedIntoEmptyValues(source);
    var r := AssignDefined(Empty(), source);
    assert r.keys == source.keys && r.values == source.values;
  }

  lemma AssignDefinedIntoEmptyKeys<V>(source: Record<Option<V>>)
    ensures AssignDefined(Empty(), source).keys == source.keys
  {
    NewKeysFresh<Option<V>>(source.keys, map[]);
  }

  lemma AssignDefinedIntoEmptyValues<V>(source: Record<Option<V>>)
    ensures AssignDefined(Empty(), source).values == source.values
  {
    assert DefinedOver(source.values, source.keys, map[]) == source.values;
  }

  /** `BaseClient` */
  class BaseClient {
    var clientConfig: ClientConfig

    /**
     * `new BaseClient(config)`: starts from `{}`, merges the defaults (whose
     * cache manager is `defaultCache`), then the user's configuration.
     */
    constructor (defaultCache: CacheManager, config: Option<ClientConfig>)
      ensures clientConfig == Configured(defaultCache, config)
    {
      clientConfig := NoConfig;
      new;
      clientConfig := Merge(clientConfig, DefaultClientConfig(defaultCache));
      clientConfig := Merge(clientConfig, config.GetOr(NoConfig));
    }
  }
}
