# Bean-definition document reader, modelled in Dafny

This project models `DefaultBeanDefinitionDocumentReader` from spring-beans: the driver that
walks a parsed XML bean-definition document and decides, element by element, what to hand to
the registry, the import loader and the custom-namespace parser.

- `dom.dfy` (module `Dom`): the document as a tree of elements (qualified and local name,
  namespace URI, attributes, children) and non-element nodes; `getAttribute`, the delegate's
  default-namespace test and its name test.
- `string_utils.dfy` (module `StringUtils`): `hasText`, `tokenizeToStringArray` (split on any
  delimiter character, trim, drop empty tokens), `applyRelativePath`, and the insertion-ordered
  set used for `actualResources`.
- `collaborators.dfy` (module `Collaborators`): the reader context and what it reaches — the
  environment, the registry, the bean-definition reader that loads imports, the resource and URI
  helpers, the parser delegate's element parsing — each as a function. The registry and the
  loader also receive the log of calls made so far, so their answers may depend on earlier
  registrations. `Effect` is one call out of the reader: a hook, a custom-parser call, a
  registry call, a load, an error, or a listener event.
- `reader_spec.dfy` (module `ReaderSpec`): the reference definition of each operation. The
  traversal functions (`RegisterSubtree`, `ParseRoot`, `ParseChildrenFrom`, `VisitChild`,
  `DispatchDefault`) map (context, log so far, `delegate` field) to a `Run`: the log afterwards,
  the `delegate` field afterwards, and whether an exception escaped. The handlers cannot move the
  field: `ImportOutcome` gives the log and whether the placeholder failure escaped,
  `ImportAbsolute` and `ImportRelative` give the log and the resources collected, and `AliasLog`
  and `BeanLog` give the log alone.
- `document_reader.dfy` (module `DocumentReader`): the class
  `DefaultBeanDefinitionDocumentReader` with the fields `readerContext` and `delegate` and the
  call log `log`. Its methods keep the source's shape (the save/replace/restore of `delegate`,
  the loop over child indices, the reassigned `location`, the `valid` flag) and each is proved
  to leave exactly the state the matching `ReaderSpec` function describes.
- `reader_properties.dfy` (module `ReaderProperties`): the properties, as lemmas.

Behaviour that follows the code as written:

- The profile-skip `return` comes before the restore of `delegate`, so the field is left at the
  skipped element's delegate. A later sibling `<beans>` reads its parent from that field and so
  falls back to the skipped element's defaults (`ReaderProperties.SkippedSiblingBecomesParent`,
  with a worked instance in `ReaderProperties.SkippedSiblingExample`).
- An unresolvable placeholder in an import location is not caught: it ends the whole traversal,
  skips the post-hook, and leaves `delegate` unrestored in every enclosing call.
- The alias event fires when both attributes have text, even if the registry threw. The component
  event fires even after a registration failure was reported. Both hold when the error sink
  returns normally (a problem reporter that collects problems); see "## Left out".
- The import event carries the placeholder-resolved location.
- The two extension hooks are empty in this class. The log records that they were called, so
  that the order "pre-hook, parse, post-hook" and the early return before them can be stated.

## Model

| member | source | states |
|---|---|---|
| DocumentReader.DefaultBeanDefinitionDocumentReader.RegisterBeanDefinitions | spring-beans/src/main/java/org/springframework/beans/factory/xml/DefaultBeanDefinitionDocumentReader.java:95-102 | keeps the given context in `readerContext`, then leaves exactly the state of registering the document element's sub-tree |
| DocumentReader.DefaultBeanDefinitionDocumentReader.GetReaderContext | spring-beans/src/main/java/org/springframework/beans/factory/xml/DefaultBeanDefinitionDocumentReader.java:107-110 | yields the context exactly when one was set, otherwise fails with "No XmlReaderContext available" |
| DocumentReader.DefaultBeanDefinitionDocumentReader.DoRegisterBeanDefinitions | spring-beans/src/main/java/org/springframework/beans/factory/xml/DefaultBeanDefinitionDocumentReader.java:125-161 | saves `delegate`, installs a child delegate whose parent is the saved one, returns early on a profile reject, runs the hooks around the parse and restores the parent; new log, field and escape agree with `RegisterSubtree` |
| DocumentReader.DefaultBeanDefinitionDocumentReader.ParseBeanDefinitions | spring-beans/src/main/java/org/springframework/beans/factory/xml/DefaultBeanDefinitionDocumentReader.java:176-202 | the loop over child indices; its invariant is that what remains equals `ParseChildrenFrom` from the current index; a custom root goes to the custom parser whole |
| DocumentReader.DefaultBeanDefinitionDocumentReader.ParseDefaultElement | spring-beans/src/main/java/org/springframework/beans/factory/xml/DefaultBeanDefinitionDocumentReader.java:209-228 | routes by name to import, alias, bean or nested beans and ignores other names, as `DispatchDefault` |
| DocumentReader.DefaultBeanDefinitionDocumentReader.ImportBeanDefinitionResource | spring-beans/src/main/java/org/springframework/beans/factory/xml/DefaultBeanDefinitionDocumentReader.java:245-320 | blank check, placeholder resolution, absolute test, absolute or relative load with the resource set filled in place, then the event; new log and escape agree with `ImportOutcome` |
| DocumentReader.DefaultBeanDefinitionDocumentReader.ProcessAliasRegistration | spring-beans/src/main/java/org/springframework/beans/factory/xml/DefaultBeanDefinitionDocumentReader.java:325-351 | both checks with the `valid` flag, then the registry call, the failure report and the event; new log agrees with `AliasLog` |
| DocumentReader.DefaultBeanDefinitionDocumentReader.ProcessBeanDefinition | spring-beans/src/main/java/org/springframework/beans/factory/xml/DefaultBeanDefinitionDocumentReader.java:357-383 | parse, decorate, register, report a failure, fire the event; new log agrees with `BeanLog` |
| DocumentReader.DefaultBeanDefinitionDocumentReader.PreProcessXml | spring-beans/src/main/java/org/springframework/beans/factory/xml/DefaultBeanDefinitionDocumentReader.java:396-397 | the pre-parse hook: adds only the record of its own call |
| DocumentReader.DefaultBeanDefinitionDocumentReader.PostProcessXml | spring-beans/src/main/java/org/springframework/beans/factory/xml/DefaultBeanDefinitionDocumentReader.java:409-410 | the post-parse hook: adds only the record of its own call |
| ReaderSpec.RegisterSubtree | spring-beans/src/main/java/org/springframework/beans/factory/xml/DefaultBeanDefinitionDocumentReader.java:125-161 | a sub-tree only appends to the log: calls made before it are never undone |
| ReaderSpec.ParseRoot | spring-beans/src/main/java/org/springframework/beans/factory/xml/DefaultBeanDefinitionDocumentReader.java:176-202 | parsing a root only appends to the log |
| ReaderSpec.ParseChildrenFrom | spring-beans/src/main/java/org/springframework/beans/factory/xml/DefaultBeanDefinitionDocumentReader.java:181-195 | the remaining children only append to the log, also when one of them throws |
| ReaderSpec.VisitChild | spring-beans/src/main/java/org/springframework/beans/factory/xml/DefaultBeanDefinitionDocumentReader.java:182-194 | one child node only appends to the log |
| ReaderSpec.DispatchDefault | spring-beans/src/main/java/org/springframework/beans/factory/xml/DefaultBeanDefinitionDocumentReader.java:209-228 | one default element only appends to the log |
| ReaderSpec.ImportAbsolute | spring-beans/src/main/java/org/springframework/beans/factory/xml/DefaultBeanDefinitionDocumentReader.java:273-285 | an absolute import only appends to the log and collects resources without duplicates |
| ReaderSpec.ImportRelative | spring-beans/src/main/java/org/springframework/beans/factory/xml/DefaultBeanDefinitionDocumentReader.java:286-316 | a relative import only appends to the log and collects resources without duplicates |
| ReaderSpec.ImportOutcome | spring-beans/src/main/java/org/springframework/beans/factory/xml/DefaultBeanDefinitionDocumentReader.java:245-320 | an import only appends to the log |
| ReaderSpec.AliasLog | spring-beans/src/main/java/org/springframework/beans/factory/xml/DefaultBeanDefinitionDocumentReader.java:325-351 | alias processing only appends to the log |
| ReaderSpec.BeanLog | spring-beans/src/main/java/org/springframework/beans/factory/xml/DefaultBeanDefinitionDocumentReader.java:357-383 | bean processing only appends to the log |
| StringUtils.TokenizeToStringArray | spring-beans/src/main/java/org/springframework/beans/factory/xml/DefaultBeanDefinitionDocumentReader.java:142-143 | every profile token is non-empty, has no leading or trailing blank, and contains no delimiter |
| StringUtils.AddAll | spring-beans/src/main/java/org/springframework/beans/factory/xml/DefaultBeanDefinitionDocumentReader.java:258 | the linked set of loaded resources: no duplicates, keeps what it had in order, and holds exactly the old and the added elements |
| ReaderSpec.CreateDelegate | spring-beans/src/main/java/org/springframework/beans/factory/xml/DefaultBeanDefinitionDocumentReader.java:163-169 | the new delegate records the root and the parent it falls back to, is one level deeper than that parent, and so is never the parent itself |
| ReaderSpec.SpecifiedProfiles | spring-beans/src/main/java/org/springframework/beans/factory/xml/DefaultBeanDefinitionDocumentReader.java:142-143 | every profile named is a trimmed, non-empty token free of `,`, `;` and space; an element without the attribute names none |
| ReaderSpec.SkippedByProfile | spring-beans/src/main/java/org/springframework/beans/factory/xml/DefaultBeanDefinitionDocumentReader.java:138-144 | a skipped root is in the default namespace, carries a `profile` attribute, and names profiles the environment rejects |
| ReaderSpec.IsAbsoluteLocation | spring-beans/src/main/java/org/springframework/beans/factory/xml/DefaultBeanDefinitionDocumentReader.java:262-269 | a URL is absolute; when the URI does not parse or is not absolute, the location is absolute exactly when it is a URL |
| StringUtils.HasText | spring-beans/src/main/java/org/springframework/beans/factory/xml/DefaultBeanDefinitionDocumentReader.java:141 | a string with text is non-empty; one without is whitespace throughout; a string starting with a non-whitespace character has text |
| StringUtils.SingleToken | spring-beans/src/main/java/org/springframework/beans/factory/xml/DefaultBeanDefinitionDocumentReader.java:142-143 | a string that is already a token (non-empty, trimmed, delimiter-free) tokenizes to itself alone |
| StringUtils.ApplyRelativePath | spring-beans/src/main/java/org/springframework/beans/factory/xml/DefaultBeanDefinitionDocumentReader.java:303 | the relative path always ends the result, and a base without `/` yields the relative path itself |
| Dom.GetAttribute | spring-beans/src/main/java/org/springframework/beans/factory/xml/DefaultBeanDefinitionDocumentReader.java:140 | the attribute's value, or the empty string when it is absent |
| Dom.IsDefaultNamespace | spring-beans/src/main/java/org/springframework/beans/factory/xml/DefaultBeanDefinitionDocumentReader.java:138 | an element without a namespace is in the default namespace; any other default element is in the beans namespace |
| Dom.NodeNameEquals | spring-beans/src/main/java/org/springframework/beans/factory/xml/DefaultBeanDefinitionDocumentReader.java:211-223 | a matching local name suffices, whatever the prefix; otherwise the qualified name must match |
| ReaderProperties.ProfileSkipLeavesNoTrace | spring-beans/src/main/java/org/springframework/beans/factory/xml/DefaultBeanDefinitionDocumentReader.java:138-151 | a default root whose profiles are rejected leaves the log untouched (no hook, parse, registration, error or event) and the field at the child delegate |
| ReaderProperties.CustomRootIsNeverSkipped | spring-beans/src/main/java/org/springframework/beans/factory/xml/DefaultBeanDefinitionDocumentReader.java:138 | the profile test applies only to a default-namespace root |
| ReaderProperties.DelegateRestoredOnNormalPath | spring-beans/src/main/java/org/springframework/beans/factory/xml/DefaultBeanDefinitionDocumentReader.java:154-160 | when not skipped and nothing escapes, the post-hook is the last call and the field is back at its value on entry |
| ReaderProperties.SubtreeCompletes | spring-beans/src/main/java/org/springframework/beans/factory/xml/DefaultBeanDefinitionDocumentReader.java:125-228 | when every `<import>` in the sub-tree with a non-blank `resource` names a resolvable location, no exception escapes the sub-tree at any depth |
| ReaderProperties.RootCompletes | spring-beans/src/main/java/org/springframework/beans/factory/xml/DefaultBeanDefinitionDocumentReader.java:176-202 | when the root's import locations resolve, parsing the root does not throw |
| ReaderProperties.ChildrenComplete | spring-beans/src/main/java/org/springframework/beans/factory/xml/DefaultBeanDefinitionDocumentReader.java:181-195 | when the root's import locations resolve, the child loop does not throw |
| ReaderProperties.VisitCompletes | spring-beans/src/main/java/org/springframework/beans/factory/xml/DefaultBeanDefinitionDocumentReader.java:182-194 | when the child's import locations resolve, visiting it does not throw |
| ReaderProperties.DispatchCompletes | spring-beans/src/main/java/org/springframework/beans/factory/xml/DefaultBeanDefinitionDocumentReader.java:209-228 | when the element's import locations resolve, dispatching it does not throw |
| ReaderProperties.DelegateStackDiscipline | spring-beans/src/main/java/org/springframework/beans/factory/xml/DefaultBeanDefinitionDocumentReader.java:134-160 | when the sub-tree's import locations resolve and the root is not skipped, the field is restored to its entry value however deep the nesting (lines 134-135 save the field, line 160 restores it) |
| ReaderProperties.SkippedSiblingBecomesParent | spring-beans/src/main/java/org/springframework/beans/factory/xml/DefaultBeanDefinitionDocumentReader.java:134-169 | for any root and index: after a nested `<beans>` skipped by profile, the next nested `<beans>` sibling is registered with the skipped element's delegate as its parent, and the loop goes on from the field it leaves (parent read at 134-135, early return at 149, dispatch at 223-227) |
| ReaderProperties.SkippedBeansLeavesItsDelegate | spring-beans/src/main/java/org/springframework/beans/factory/xml/DefaultBeanDefinitionDocumentReader.java:138-160 | a nested `<beans>` child skipped by profile logs nothing and hands the loop on with its own delegate in the field, not the enclosing one (the return at 149 skips the restore at 160) |
| ReaderProperties.SkippedSiblingExample | spring-beans/src/main/java/org/springframework/beans/factory/xml/DefaultBeanDefinitionDocumentReader.java:134-169 | in a document `beans[beans profile=dev, beans[x:y]]` with `dev` inactive, the custom element is parsed with a delegate whose parent is the skipped sibling's |
| ReaderProperties.CustomChildrenParsedInOrder | spring-beans/src/main/java/org/springframework/beans/factory/xml/DefaultBeanDefinitionDocumentReader.java:180-194 | when every element child from the given index on is outside the default namespace: each of them goes to the custom parser once, in index order, with the enclosing delegate, other nodes leave nothing, and the field is untouched |
| ReaderProperties.DefaultRootWithCustomChildren | spring-beans/src/main/java/org/springframework/beans/factory/xml/DefaultBeanDefinitionDocumentReader.java:134-194 | a default root: pre-hook, children under a delegate built from the root with the entry field as parent, post-hook, field restored (delegate creation at 134-135, hooks and restore at 154-160, traversal at 176-194) |
| ReaderProperties.CustomRootHandedWhole | spring-beans/src/main/java/org/springframework/beans/factory/xml/DefaultBeanDefinitionDocumentReader.java:197-201 | a custom root is parsed once, whole, between the hooks; no child is visited |
| ReaderProperties.UnknownDefaultElementIgnored | spring-beans/src/main/java/org/springframework/beans/factory/xml/DefaultBeanDefinitionDocumentReader.java:209-228 | a default element with any other name changes nothing and reports no error |
| ReaderProperties.OnlyNestedBeansMovesDelegate | spring-beans/src/main/java/org/springframework/beans/factory/xml/DefaultBeanDefinitionDocumentReader.java:223-227 | only a `beans` element (none of the other three names) can change the field |
| ReaderProperties.EveryParsedBeanIsRegistered | spring-beans/src/main/java/org/springframework/beans/factory/xml/DefaultBeanDefinitionDocumentReader.java:181-195 | children that are text, comments or bean elements (`bean` or `beans:bean`) that parse: exactly as many registry calls and component events as element children, and the field untouched (bean branch at 219-221, processing at 362-381) |
| ReaderProperties.PrefixedBeanIsRoutedToBean | spring-beans/src/main/java/org/springframework/beans/factory/xml/DefaultBeanDefinitionDocumentReader.java:209-221 | `beans:bean` in the beans namespace matches `bean` by its local name and is processed as a bean |
| ReaderProperties.BeanEffects | spring-beans/src/main/java/org/springframework/beans/factory/xml/DefaultBeanDefinitionDocumentReader.java:362-382 | a null holder leaves no trace; otherwise exactly: the registry call with the decorated holder, then, only when the registry refuses, the error naming the decorated bean, then the component event |
| ReaderProperties.AliasValidationNotShortCircuited | spring-beans/src/main/java/org/springframework/beans/factory/xml/DefaultBeanDefinitionDocumentReader.java:327-350 | one error per blank attribute, registry call and event exactly when both have text, one more error when the registry throws |
| ReaderProperties.BlankAliasGivesTwoErrors | spring-beans/src/main/java/org/springframework/beans/factory/xml/DefaultBeanDefinitionDocumentReader.java:330-338 | a blank name and a blank alias give exactly the two errors |
| ReaderProperties.BlankImportLocation | spring-beans/src/main/java/org/springframework/beans/factory/xml/DefaultBeanDefinitionDocumentReader.java:247-252 | a blank resource gives exactly one error, no load and no event |
| ReaderProperties.UnresolvablePlaceholderEscapes | spring-beans/src/main/java/org/springframework/beans/factory/xml/DefaultBeanDefinitionDocumentReader.java:256 | an unresolvable placeholder escapes with nothing logged |
| ReaderProperties.MalformedUriIsRelative | spring-beans/src/main/java/org/springframework/beans/factory/xml/DefaultBeanDefinitionDocumentReader.java:262-269 | a URI syntax failure leaves the location relative |
| ReaderProperties.ImportEventAlwaysFires | spring-beans/src/main/java/org/springframework/beans/factory/xml/DefaultBeanDefinitionDocumentReader.java:256-319 | a resolvable import loads at most once, reports at most one error, and ends with the event carrying the resolved location and exactly the resources its load branch collected, without duplicates |
| ReaderProperties.LoadEffectsCounted | spring-beans/src/main/java/org/springframework/beans/factory/xml/DefaultBeanDefinitionDocumentReader.java:273-316 | each branch of the absolute/relative load makes at most one load and at most one error report |
| ReaderProperties.AbsoluteImportFailure | spring-beans/src/main/java/org/springframework/beans/factory/xml/DefaultBeanDefinitionDocumentReader.java:273-285 | a failing absolute load is reported once with the URL message and the event fires with no resources (event at 318-319) |
| ReaderProperties.AbsoluteImportSuccess | spring-beans/src/main/java/org/springframework/beans/factory/xml/DefaultBeanDefinitionDocumentReader.java:273-280 | an absolute location that loads: one load and the event carrying the loader's resources, each once, with exactly the loader's elements |
| ReaderProperties.RelativeImportFailure | spring-beans/src/main/java/org/springframework/beans/factory/xml/DefaultBeanDefinitionDocumentReader.java:286-315 | a relative load that fails, from the existing sibling or from the base URL, is reported once with the relative-location message and the event fires with no resources (report at 312-315) |
| ReaderProperties.RelativeImportFromBaseUrl | spring-beans/src/main/java/org/springframework/beans/factory/xml/DefaultBeanDefinitionDocumentReader.java:298-304 | a missing sibling resource: the path applied to the base URL is loaded and the event carries the loader's resources |
| ReaderProperties.RelativeImportTriesSiblingFirst | spring-beans/src/main/java/org/springframework/beans/factory/xml/DefaultBeanDefinitionDocumentReader.java:293-304 | an existing relative resource is loaded and recorded; otherwise the relative path applied to the base URL is loaded |
| ReaderProperties.UnresolvableCurrentResource | spring-beans/src/main/java/org/springframework/beans/factory/xml/DefaultBeanDefinitionDocumentReader.java:293-311 | an I/O failure of createRelative or getURL is reported with the current-location message and nothing is loaded (createRelative at 293, getURL at 300, the failure report at 309-311) |
| ReaderProperties.ApplyRelativePathExample | spring-beans/src/main/java/org/springframework/beans/factory/xml/DefaultBeanDefinitionDocumentReader.java:300-303 | the base `a/b.cfg` with `c.cfg` gives `a/c.cfg` |
| ReaderProperties.ApplyRelativePathKeepsFolder | spring-beans/src/main/java/org/springframework/beans/factory/xml/DefaultBeanDefinitionDocumentReader.java:300-303 | the relative path replaces what follows the last `/` of the base |
| ReaderProperties.DevProfile | spring-beans/src/main/java/org/springframework/beans/factory/xml/DefaultBeanDefinitionDocumentReader.java:142-143 | the profile attribute `dev` is the single profile `dev` |

## Left out

- Logging (`logger.debug`, `logger.info`): output only.
- The DOM is an immutable tree; attributes in other namespaces and the live `NodeList` are not modelled.
- `BeanDefinitionParserDelegate` internals are not part of this model. A delegate is the record of what `initDefaults` receives (the root and the parent delegate); how default-* values are resolved is not modelled. Delegates are compared as values, not by object identity.
- The defaults-registered event that `initDefaults` fires to the reader context is not in the log, so the "no event" of a profile skip (`ReaderProperties.ProfileSkipLeavesNoTrace`) speaks of the import, alias and component events only.
- Element parsing and decoration are functions of the context; `parseCustomElement` is recorded as a call, and its returned definition is ignored, as in the source.
- Exceptions other than the unresolvable placeholder (runtime exceptions from the parser delegate, the custom parser, or the loader beyond `BeanDefinitionStoreException`) are not modelled; reported errors do not carry their cause.
- `extractSource`: errors and events carry the element itself.
- The error sink (`getReaderContext().error`) returns normally, as a problem reporter that collects problems does. A fail-fast reporter, the default of the XML bean-definition reader, throws at the first reported error: there would then be no second alias error, no alias or component event after a reported registry failure, no import event after a reported load failure, and no further traversal. That reporter is not part of this model.
- Imported documents are loaded by the abstract loader; what they register is not in the log, and cyclic imports are neither modelled nor guarded.
- `isUrl`, `toURI`, `createRelative`, `exists`, `getURL` and `resolveRequiredPlaceholders` are functions of the context.
- The loader adds resources to `actualResources` only when its load succeeds; the loader's own code is not part of this model.
- DocumentReader.DefaultBeanDefinitionDocumentReader.DoRegisterBeanDefinitions: requires a reader context to be set (and so do the other handlers), because `registerBeanDefinitions` sets it before any of them runs; the `Assert.state` failure is modelled in `GetReaderContext` only.
