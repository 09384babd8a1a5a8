/**
 * The reference definition of what `DefaultBeanDefinitionDocumentReader` does, as functions of
 * the reader context, the log of calls made so far and the value of the reader's `delegate`
 * field. Each function returns a `Run`: the log afterwards, the `delegate` field afterwards, and
 * whether an exception escaped. The reader class is proved to agree with these functions; the
 * properties of the reader are lemmas about them.
 */
module ReaderSpec {
  import opened Options
  import opened Dom
  import opened StringUtils
  import opened Collaborators

  const BeanElement := "bean"
  const NestedBeansElement := "beans"
  const AliasElement := "alias"
  const NameAttribute := "name"
  const AliasAttribute := "alias"
  const ImportElement := "import"
  const ResourceAttribute := "resource"
  const ProfileAttribute := "profile"
  /** The delimiters of a multi-valued attribute such as `profile`. */
  const MultiValueAttributeDelimiters := ",; "

  const EmptyLocationMessage := "Resource location must not be empty"
  const UnresolvedCurrentResourceMessage := "Failed to resolve current resource location"
  const EmptyNameMessage := "Name must not be empty"
  const EmptyAliasMessage := "Alias must not be empty"

  function UrlImportFailedMessage(location: string): string
  {
    "Failed to import bean definitions from URL location [" + location + "]"
  }

  function RelativeImportFailedMessage(location: string): string
  {
    "Failed to import bean definitions from relative location [" + location + "]"
  }

  function AliasFailedMessage(name: string, alias: string): string
  {
    "Failed to register alias '" + alias + "' for bean with name '" + name + "'"
  }

  function BeanFailedMessage(beanName: string): string
  {
    "Failed to register bean definition with name '" + beanName + "'"
  }

  /** The state a call leaves: the log, the reader's `delegate` field, and whether an exception escaped. */
  datatype Run = Run(log: seq<Effect>, delegate: Option<Delegate>, thrown: bool)

  /** How many enclosing delegates a delegate falls back through. */
  function Depth(d: Delegate): nat
    decreases d
  {
    match d.parent
    case None => 0
    case Some(p) => 1 + Depth(p)
  }

  /**
   * `createDelegate`: a delegate initialised from `root`'s defaults, falling back to `parent`;
   * it is one level deeper than its parent, and so never the parent itself.
   */
  function CreateDelegate(root: Element, parent: Option<Delegate>): (r: Delegate)
    ensures r.root == root && r.parent == parent
    ensures Depth(r) == (if parent.Some? then Depth(parent.value) + 1 else 0)
    ensures parent.Some? ==> r != parent.value
  {
    Delegate(root, parent)
  }

  /** The profiles named by `root`'s `profile` attribute. */
  function SpecifiedProfiles(root: Element): (r: seq<string>)
    ensures forall k :: 0 <= k < |r| ==> IsToken(r[k], set c | c in MultiValueAttributeDelimiters)
    ensures ProfileAttribute !in root.attributes ==> r == []
  {
    TokenizeToStringArray(GetAttribute(root, ProfileAttribute), MultiValueAttributeDelimiters)
  }

  /** A default-namespace root whose `profile` attribute has text that the environment rejects. */
  predicate SkippedByProfile(c: ReaderContext, root: Element): (r: bool)
    ensures r ==> IsDefaultNamespace(root) && ProfileAttribute in root.attributes
    ensures r ==> !c.environment.acceptsProfiles(SpecifiedProfiles(root))
  {
    && IsDefaultNamespace(root)
    && HasText(GetAttribute(root, ProfileAttribute))
    && !c.environment.acceptsProfiles(SpecifiedProfiles(root))
  }

  /** `doRegisterBeanDefinitions`: one `<beans>` sub-tree, entered with `current` in the `delegate` field. */
  function RegisterSubtree(c: ReaderContext, log: seq<Effect>, current: Option<Delegate>, root: Element): (r: Run)
    ensures log <= r.log
    decreases root, 2, 0
  {
    var child := CreateDelegate(root, current);
    if SkippedByProfile(c, root) then
      Run(log, Some(child), false)
    else
      var parsed := ParseRoot(c, log + [PreProcess(root)], Some(child), root, child);
      if parsed.thrown then parsed
      else Run(parsed.log + [PostProcess(root)], current, false)
  }

  /** `parseBeanDefinitions`: the children of a default-namespace root, or the whole custom root. */
  function ParseRoot(c: ReaderContext, log: seq<Effect>, field: Option<Delegate>, root: Element, d: Delegate): (r: Run)
    ensures log <= r.log
    decreases root, 1, |root.children| + 1
  {
    if IsDefaultNamespace(root) then ParseChildrenFrom(c, log, field, root, d, 0)
    else Run(log + [CustomParse(root, d)], field, false)
  }

  /** The loop of `parseBeanDefinitions` from child index `i` on; it stops at an escaping exception. */
  function ParseChildrenFrom(c: ReaderContext, log: seq<Effect>, field: Option<Delegate>, root: Element, d: Delegate, i: nat): (r: Run)
    requires i <= |root.children|
    ensures log <= r.log
    decreases root, 1, |root.children| - i
  {
    if i == |root.children| then Run(log, field, false)
    else
      var visited := VisitChild(c, log, field, root.children[i], d);
      if visited.thrown then visited
      else ParseChildrenFrom(c, visited.log, visited.delegate, root, d, i + 1)
  }

  /** One child node: skipped unless an element; then routed by the child's own namespace. */
  function VisitChild(c: ReaderContext, log: seq<Effect>, field: Option<Delegate>, node: Node, d: Delegate): (r: Run)
    ensures log <= r.log
    decreases node, 4, 0
  {
    match node
    case OtherNode(_) => Run(log, field, false)
    case ElementNode(e) =>
      if IsDefaultNamespace(e) then DispatchDefault(c, log, field, e, d)
      else Run(log + [CustomParse(e, d)], field, false)
  }

  /** `parseDefaultElement`: import, alias, bean or nested beans; any other name is ignored. */
  function DispatchDefault(c: ReaderContext, log: seq<Effect>, field: Option<Delegate>, e: Element, d: Delegate): (r: Run)
    ensures log <= r.log
    decreases e, 3, 0
  {
    if NodeNameEquals(e, ImportElement) then
      var imported := ImportOutcome(c, log, e);
      Run(imported.0, field, imported.1)
    else if NodeNameEquals(e, AliasElement) then Run(AliasLog(c, log, e), field, false)
    else if NodeNameEquals(e, BeanElement) then Run(BeanLog(c, log, e, d), field, false)
    else if NodeNameEquals(e, NestedBeansElement) then RegisterSubtree(c, log, field, e)
    else Run(log, field, false)
  }

  /** The absolute-or-relative test: a URL, or a URI that parses and is absolute. */
  predicate IsAbsoluteLocation(c: ReaderContext, location: string): (r: bool)
    ensures c.locations.isUrl(location) ==> r
    ensures c.locations.toUri(location) != Some(true) ==> (r <==> c.locations.isUrl(location))
  {
    c.locations.isUrl(location) || c.locations.toUri(location) == Some(true)
  }

  /** Loading an absolute location: the log afterwards and the resources collected. */
  function ImportAbsolute(c: ReaderContext, log: seq<Effect>, e: Element, location: string): (r: (seq<Effect>, seq<Resource>))
    ensures log <= r.0 && NoDuplicates(r.1)
  {
    var called := log + [LoadLocation(location)];
    match c.reader.loadByLocation(log, location)
    case Loaded(_, resources) => (called, AddAll([], resources))
    case StoreFailure => (called + [Error(UrlImportFailedMessage(location), e)], [])
  }

  /** Loading a relative location: the sibling resource if it exists, else the path against the base URL. */
  function ImportRelative(c: ReaderContext, log: seq<Effect>, e: Element, location: string): (r: (seq<Effect>, seq<Resource>))
    ensures log <= r.0 && NoDuplicates(r.1)
  {
    match c.locations.createRelative(c.resource, location)
    case None => (log + [Error(UnresolvedCurrentResourceMessage, e)], [])
    case Some(relativeResource) =>
      if c.locations.resourceExists(relativeResource) then
        var called := log + [LoadResource(relativeResource)];
        match c.reader.loadByResource(log, relativeResource)
        case Loaded(_, _) => (called, AddAll([], [relativeResource]))
        case StoreFailure => (called + [Error(RelativeImportFailedMessage(location), e)], [])
      else
        match c.locations.getUrl(c.resource)
        case None => (log + [Error(UnresolvedCurrentResourceMessage, e)], [])
        case Some(baseLocation) =>
          var target := ApplyRelativePath(baseLocation, location);
          var called := log + [LoadLocation(target)];
          match c.reader.loadByLocation(log, target)
          case Loaded(_, resources) => (called, AddAll([], resources))
          case StoreFailure => (called + [Error(RelativeImportFailedMessage(location), e)], [])
  }

  /** `importBeanDefinitionResource`: the log afterwards, and whether the placeholder failure escaped. */
  function ImportOutcome(c: ReaderContext, log: seq<Effect>, e: Element): (r: (seq<Effect>, bool))
    ensures log <= r.0
  {
    var location := GetAttribute(e, ResourceAttribute);
    if !HasText(location) then (log + [Error(EmptyLocationMessage, e)], false)
    else match c.environment.resolveRequiredPlaceholders(location)
      case None => (log, true)
      case Some(resolved) =>
        var loaded :=
          if IsAbsoluteLocation(c, resolved) then ImportAbsolute(c, log, e, resolved)
          else ImportRelative(c, log, e, resolved);
        (loaded.0 + [ImportProcessed(resolved, loaded.1, e)], false)
  }

  /** `processAliasRegistration`: both checks, then the registry call and the event when both pass. */
  function AliasLog(c: ReaderContext, log: seq<Effect>, e: Element): (r: seq<Effect>)
    ensures log <= r
  {
    var name := GetAttribute(e, NameAttribute);
    var alias := GetAttribute(e, AliasAttribute);
    var checkedName := if HasText(name) then log else log + [Error(EmptyNameMessage, e)];
    var checked := if HasText(alias) then checkedName else checkedName + [Error(EmptyAliasMessage, e)];
    if HasText(name) && HasText(alias) then
      var called := checked + [RegisterAliasCall(name, alias)];
      var reported :=
        if c.registry.registerAlias(checked, name, alias) then called
        else called + [Error(AliasFailedMessage(name, alias), e)];
      reported + [AliasRegistered(name, alias, e)]
    else
      checked
  }

  /** `processBeanDefinition`: parse, decorate, register, report a failure, fire the event. */
  function BeanLog(c: ReaderContext, log: seq<Effect>, e: Element, d: Delegate): (r: seq<Effect>)
    ensures log <= r
  {
    match c.parsing.parseBeanDefinitionElement(e, d)
    case None => log
    case Some(parsed) =>
      var holder := c.parsing.decorateBeanDefinitionIfRequired(e, parsed, d);
      var called := log + [RegisterBeanCall(holder)];
      var reported :=
        if c.registry.registerBeanDefinition(log, holder) then called
        else called + [Error(BeanFailedMessage(holder.beanName), e)];
      reported + [ComponentRegistered(holder)]
  }
}
