/**
 * `DefaultBeanDefinitionDocumentReader`: walks a bean-definition document and decides what to
 * register. The reader keeps the reader context and the current parser delegate in fields;
 * `doRegisterBeanDefinitions` saves the delegate, installs a child delegate and restores the
 * parent at the end, except on the profile-skip return and when an exception escapes. `log`
 * stands for the calls the reader makes into its collaborators, in order.
 */
module DocumentReader {
  import opened Options
  import opened Dom
  import opened StringUtils
  import opened Collaborators
  import opened ReaderSpec

  class DefaultBeanDefinitionDocumentReader {
    var readerContext: Option<ReaderContext>
    var delegate: Option<Delegate>
    /** The calls made into the registry, the loader, the error and event sink, the custom parser and the hooks. */
    var log: seq<Effect>

    constructor ()
      ensures readerContext == None && delegate == None && log == []
    {
      readerContext := None;
      delegate := None;
      log := [];
    }

    /** `registerBeanDefinitions`: keeps the context, then registers the document element's sub-tree. */
    method RegisterBeanDefinitions(doc: Document, context: ReaderContext) returns (thrown: bool)
      modifies this
      ensures readerContext == Some(context)
      ensures Run(log, delegate, thrown) == RegisterSubtree(context, old(log), old(delegate), doc.documentElement)
    {
      readerContext := Some(context);
      var root := doc.documentElement;
      thrown := DoRegisterBeanDefinitions(root);
    }

    /** `getReaderContext`: the context, or the failure `Assert.state` raises before one was set. */
    method GetReaderContext() returns (r: Result<ReaderContext>)
      ensures r.Ok? <==> readerContext.Some?
      ensures r.Ok? ==> r.value == readerContext.value
      ensures r.Failed? ==> r.message == "No XmlReaderContext available"
    {
      if readerContext.None? {
        return Failed("No XmlReaderContext available");
      }
      return Ok(readerContext.value);
    }

    /** `doRegisterBeanDefinitions`: one `<beans>` sub-tree under a child delegate. */
    method DoRegisterBeanDefinitions(root: Element) returns (thrown: bool)
      requires readerContext.Some?
      modifies this`delegate, this`log
      ensures Run(log, delegate, thrown) == RegisterSubtree(readerContext.value, old(log), old(delegate), root)
      decreases root, 2, 0
    {
      var context := readerContext.value;
      var parent := delegate;
      delegate := Some(CreateDelegate(root, parent));
      if IsDefaultNamespace(root) {
        var profileSpec := GetAttribute(root, ProfileAttribute);
        if HasText(profileSpec) {
          var specifiedProfiles := TokenizeToStringArray(profileSpec, MultiValueAttributeDelimiters);
          if !context.environment.acceptsProfiles(specifiedProfiles) {
            return false;
          }
        }
      }
      PreProcessXml(root);
      thrown := ParseBeanDefinitions(root, delegate.value);
      if thrown {
        return;
      }
      PostProcessXml(root);
      delegate := parent;
    }

    /** `parseBeanDefinitions`: the element children of a default root in order, or the custom root whole. */
    method ParseBeanDefinitions(root: Element, d: Delegate) returns (thrown: bool)
      requires readerContext.Some?
      modifies this`delegate, this`log
      ensures Run(log, delegate, thrown) == ParseRoot(readerContext.value, old(log), old(delegate), root, d)
      decreases root, 1, |root.children| + 1
    {
      var context := readerContext.value;
      if IsDefaultNamespace(root) {
        var nl := root.children;
        var i := 0;
        while i < |nl|
          invariant 0 <= i <= |nl|
          invariant ParseRoot(context, old(log), old(delegate), root, d)
                 == ParseChildrenFrom(context, log, delegate, root, d, i)
        {
          var node := nl[i];
          if node.ElementNode? {
            var ele := node.element;
            if IsDefaultNamespace(ele) {
              thrown := ParseDefaultElement(ele, d);
              if thrown {
                return;
              }
            } else {
              log := log + [CustomParse(ele, d)];
            }
          }
          i := i + 1;
        }
        thrown := false;
      } else {
        log := log + [CustomParse(root, d)];
        thrown := false;
      }
    }

    /** `parseDefaultElement`: routes a default-namespace element by name. */
    method ParseDefaultElement(ele: Element, d: Delegate) returns (thrown: bool)
      requires readerContext.Some?
      modifies this`delegate, this`log
      ensures Run(log, delegate, thrown) == DispatchDefault(readerContext.value, old(log), old(delegate), ele, d)
      decreases ele, 3, 0
    {
      thrown := false;
      if NodeNameEquals(ele, ImportElement) {
        thrown := ImportBeanDefinitionResource(ele);
      } else if NodeNameEquals(ele, AliasElement) {
        ProcessAliasRegistration(ele);
      } else if NodeNameEquals(ele, BeanElement) {
        ProcessBeanDefinition(ele, d);
      } else if NodeNameEquals(ele, NestedBeansElement) {
        thrown := DoRegisterBeanDefinitions(ele);
      }
    }

    /** `importBeanDefinitionResource`; `thrown` is the unresolvable placeholder escaping. */
    method ImportBeanDefinitionResource(ele: Element) returns (thrown: bool)
      requires readerContext.Some?
      modifies this`log
      ensures (log, thrown) == ImportOutcome(readerContext.value, old(log), ele)
    {
      var context := readerContext.value;
      var location := GetAttribute(ele, ResourceAttribute);
      if !HasText(location) {
        log := log + [Error(EmptyLocationMessage, ele)];
        return false;
      }
      var resolved := context.environment.resolveRequiredPlaceholders(location);
      if resolved.None? {
        return true;
      }
      location := resolved.value;
      var actualResources: seq<Resource> := [];

      var absoluteLocation := false;
      if context.locations.isUrl(location) {
        absoluteLocation := true;
      } else {
        var uri := context.locations.toUri(location);
        if uri.Some? {
          absoluteLocation := uri.value;
        }
      }

      if absoluteLocation {
        var loaded := context.reader.loadByLocation(log, location);
        log := log + [LoadLocation(location)];
        if loaded.Loaded? {
          actualResources := AddAll(actualResources, loaded.resources);
        } else {
          log := log + [Error(UrlImportFailedMessage(location), ele)];
        }
      } else {
        var relativeResource := context.locations.createRelative(context.resource, location);
        if relativeResource.None? {
          log := log + [Error(UnresolvedCurrentResourceMessage, ele)];
        } else if context.locations.resourceExists(relativeResource.value) {
          var loaded := context.reader.loadByResource(log, relativeResource.value);
          log := log + [LoadResource(relativeResource.value)];
          if loaded.Loaded? {
            actualResources := AddAll(actualResources, [relativeResource.value]);
          } else {
            log := log + [Error(RelativeImportFailedMessage(location), ele)];
          }
        } else {
          var baseLocation := context.locations.getUrl(context.resource);
          if baseLocation.None? {
            log := log + [Error(UnresolvedCurrentResourceMessage, ele)];
          } else {
            var target := ApplyRelativePath(baseLocation.value, location);
            var loaded := context.reader.loadByLocation(log, target);
            log := log + [LoadLocation(target)];
            if loaded.Loaded? {
              actualResources := AddAll(actualResources, loaded.resources);
            } else {
              log := log + [Error(RelativeImportFailedMessage(location), ele)];
            }
          }
        }
      }
      log := log + [ImportProcessed(location, actualResources, ele)];
      thrown := false;
    }

    /** `processAliasRegistration`: validates both attributes, then registers and fires the event. */
    method ProcessAliasRegistration(ele: Element)
      requires readerContext.Some?
      modifies this`log
      ensures log == AliasLog(readerContext.value, old(log), ele)
    {
      var context := readerContext.value;
      var name := GetAttribute(ele, NameAttribute);
      var alias := GetAttribute(ele, AliasAttribute);
      var valid := true;
      if !HasText(name) {
        log := log + [Error(EmptyNameMessage, ele)];
        valid := false;
      }
      if !HasText(alias) {
        log := log + [Error(EmptyAliasMessage, ele)];
        valid := false;
      }
      if valid {
        var registered := context.registry.registerAlias(log, name, alias);
        log := log + [RegisterAliasCall(name, alias)];
        if !registered {
          log := log + [Error(AliasFailedMessage(name, alias), ele)];
        }
        log := log + [AliasRegistered(name, alias, ele)];
      }
    }

    /** `processBeanDefinition`: parses, decorates and registers one bean, then fires the event. */
    method ProcessBeanDefinition(ele: Element, d: Delegate)
      requires readerContext.Some?
      modifies this`log
      ensures log == BeanLog(readerContext.value, old(log), ele, d)
    {
      var context := readerContext.value;
      var bdHolder := context.parsing.parseBeanDefinitionElement(ele, d);
      if bdHolder.Some? {
        var holder := context.parsing.decorateBeanDefinitionIfRequired(ele, bdHolder.value, d);
        var registered := context.registry.registerBeanDefinition(log, holder);
        log := log + [RegisterBeanCall(holder)];
        if !registered {
          log := log + [Error(BeanFailedMessage(holder.beanName), ele)];
        }
        log := log + [ComponentRegistered(holder)];
      }
    }

    /** `preProcessXml`: the extension point before parsing; empty in this class, so only its call is recorded. */
    method PreProcessXml(root: Element)
      modifies this`log
      ensures log == old(log) + [PreProcess(root)]
    {
      log := log + [PreProcess(root)];
    }

    /** `postProcessXml`: the extension point after parsing; empty in this class, so only its call is recorded. */
    method PostProcessXml(root: Element)
      modifies this`log
      ensures log == old(log) + [PostProcess(root)]
    {
      log := log + [PostProcess(root)];
    }
  }
}
