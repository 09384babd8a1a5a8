/**
 * What the document reader talks to, reduced to the answers it gets back. The reader context
 * bundles the current resource, the environment, the registry, the bean-definition reader used
 * for imports, the resource-location helpers and the parser delegate's element parsing; each
 * is a function here, so any behaviour of theirs is admitted. The registry and the loader are
 * also handed the log of calls made so far, so that their answers may depend on what was
 * registered or loaded before.
 */
module Collaborators {
  import opened Options
  import opened Dom

  /** A loadable resource, known by its description. */
  datatype Resource = Resource(description: string)

  /** A parsed bean definition with its name and aliases (`BeanDefinitionHolder`). */
  datatype Holder = Holder(beanName: string, aliases: seq<string>, attributes: map<string, string>)

  /**
   * A parser delegate: the `<beans>` element whose default-* attributes it was initialised from,
   * and the delegate it falls back to for the defaults that element leaves unset.
   */
  datatype Delegate = Delegate(root: Element, parent: Option<Delegate>)

  /** The answer of `loadBeanDefinitions`: a count and the resources it loaded, or a `BeanDefinitionStoreException`. */
  datatype LoadResult = Loaded(count: nat, resources: seq<Resource>) | StoreFailure

  /**
   * One call out of the reader, in the order made: the two extension hooks, the custom-namespace
   * parser, the registry, the loader, the error sink and the three listener events. Errors and
   * events carry the element they are reported against (its extracted source).
   */
  datatype Effect =
    | PreProcess(root: Element)
    | PostProcess(root: Element)
    | CustomParse(element: Element, delegate: Delegate)
    | RegisterBeanCall(holder: Holder)
    | RegisterAliasCall(name: string, alias: string)
    | LoadLocation(location: string)
    | LoadResource(resource: Resource)
    | Error(message: string, source: Element)
    | ImportProcessed(location: string, resources: seq<Resource>, source: Element)
    | AliasRegistered(name: string, alias: string, source: Element)
    | ComponentRegistered(holder: Holder)

  /** `acceptsProfiles`, and `resolveRequiredPlaceholders`, which fails (None) on an unresolvable placeholder. */
  datatype Environment = Environment(
    acceptsProfiles: seq<string> -> bool,
    resolveRequiredPlaceholders: string -> Option<string>)

  /** The registry: each call answers whether it succeeded (false: the call threw). */
  datatype Registry = Registry(
    registerBeanDefinition: (seq<Effect>, Holder) -> bool,
    registerAlias: (seq<Effect>, string, string) -> bool)

  /** The bean-definition reader that loads imported documents, by location or by resource. */
  datatype BeanDefinitionReader = BeanDefinitionReader(
    loadByLocation: (seq<Effect>, string) -> LoadResult,
    loadByResource: (seq<Effect>, Resource) -> LoadResult)

  /**
   * Resource and URI helpers: `createRelative` and `getURL` return None where they throw an
   * `IOException`; `toUri` returns None where it throws a `URISyntaxException`, and otherwise
   * whether the URI is absolute.
   */
  datatype Locations = Locations(
    isUrl: string -> bool,
    toUri: string -> Option<bool>,
    createRelative: (Resource, string) -> Option<Resource>,
    resourceExists: Resource -> bool,
    getUrl: Resource -> Option<string>)

  /** The parser delegate's element parsing: None is a `null` holder. */
  datatype Parsing = Parsing(
    parseBeanDefinitionElement: (Element, Delegate) -> Option<Holder>,
    decorateBeanDefinitionIfRequired: (Element, Holder, Delegate) -> Holder)

  /** `XmlReaderContext`: the resource being read and the collaborators reached through it. */
  datatype ReaderContext = ReaderContext(
    resource: Resource,
    environment: Environment,
    registry: Registry,
    reader: BeanDefinitionReader,
    locations: Locations,
    parsing: Parsing)
}
