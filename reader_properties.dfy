/**
 * What the document reader promises, stated over the reference functions that the reader class
 * is proved to follow: profile skipping, the discipline of the `delegate` field (and the way the
 * profile-skip return breaks it), traversal order and routing, import handling, alias validation
 * and bean registration.
 */
module ReaderProperties {
  import opened Options
  import opened Dom
  import opened StringUtils
  import opened Collaborators
  import opened ReaderSpec

  /** How many effects of `s` satisfy `p`. */
  function CountIf(s: seq<Effect>, p: Effect -> bool): nat
  {
    if s == [] then 0 else (if p(s[0]) then 1 else 0) + CountIf(s[1..], p)
  }

  lemma {:induction false} CountIfAppend(a: seq<Effect>, b: seq<Effect>, p: Effect -> bool)
    ensures CountIf(a + b, p) == CountIf(a, p) + CountIf(b, p)
    decreases |a|
  {
    if a != [] {
      assert (a + b)[0] == a[0];
      assert (a + b)[1..] == a[1..] + b;
      CountIfAppend(a[1..], b, p);
    } else {
      assert a + b == b;
    }
  }

  lemma {:induction false} CountIfUpToThree(s: seq<Effect>, p: Effect -> bool)
    requires |s| <= 3
    ensures CountIf(s, p)
      == (if |s| > 0 && p(s[0]) then 1 else 0) + (if |s| > 1 && p(s[1]) then 1 else 0)
         + (if |s| > 2 && p(s[2]) then 1 else 0)
    decreases |s|
  {
    if s != [] {
      CountIfUpToThree(s[1..], p);
    }
  }

  predicate IsError(x: Effect) { x.Error? }
  predicate IsLoad(x: Effect) { x.LoadLocation? || x.LoadResource? }
  predicate IsBeanRegistration(x: Effect) { x.RegisterBeanCall? }
  predicate IsComponentEvent(x: Effect) { x.ComponentRegistered? }

  // ---------------------------------------------------------------- profiles and the delegate field

  /**
   * A default-namespace root whose profiles the environment rejects is skipped before any hook,
   * parse, registration, error or event; the `delegate` field is left at the child delegate.
   */
  lemma ProfileSkipLeavesNoTrace(c: ReaderContext, log: seq<Effect>, current: Option<Delegate>, root: Element)
    requires IsDefaultNamespace(root) && HasText(GetAttribute(root, ProfileAttribute))
    requires !c.environment.acceptsProfiles(SpecifiedProfiles(root))
    ensures RegisterSubtree(c, log, current, root) == Run(log, Some(Delegate(root, current)), false)
  {
  }

  /** A root outside the default namespace is never skipped by profile, whatever its attributes. */
  lemma CustomRootIsNeverSkipped(c: ReaderContext, root: Element)
    requires !IsDefaultNamespace(root)
    ensures !SkippedByProfile(c, root)
  {
  }

  /** On the normal path the `delegate` field is back at its value on entry. */
  lemma DelegateRestoredOnNormalPath(c: ReaderContext, log: seq<Effect>, current: Option<Delegate>, root: Element)
    requires !SkippedByProfile(c, root)
    ensures var r := RegisterSubtree(c, log, current, root);
      !r.thrown ==> r.delegate == current && r.log[|r.log| - 1] == PostProcess(root)
  {
  }

  /**
   * Every `<import>` in the sub-tree rooted at `e` whose `resource` has text names a location
   * whose placeholders the environment resolves: the only exception the reader lets escape.
   */
  predicate ImportsResolve(c: ReaderContext, e: Element)
    decreases e
  {
    && (IsDefaultNamespace(e) && NodeNameEquals(e, ImportElement) && HasText(GetAttribute(e, ResourceAttribute)) ==>
          c.environment.resolveRequiredPlaceholders(GetAttribute(e, ResourceAttribute)).Some?)
    && forall k :: 0 <= k < |e.children| && e.children[k].ElementNode? ==> ImportsResolve(c, e.children[k].element)
  }

  /** No exception escapes a sub-tree whose import locations resolve, at any depth of nesting. */
  lemma {:induction false} SubtreeCompletes(c: ReaderContext, log: seq<Effect>, current: Option<Delegate>, root: Element)
    requires ImportsResolve(c, root)
    ensures !RegisterSubtree(c, log, current, root).thrown
    decreases root, 2, 0
  {
    var child := CreateDelegate(root, current);
    if !SkippedByProfile(c, root) {
      RootCompletes(c, log + [PreProcess(root)], Some(child), root, child);
    }
  }

  lemma {:induction false} RootCompletes(c: ReaderContext, log: seq<Effect>, field: Option<Delegate>, root: Element, d: Delegate)
    requires ImportsResolve(c, root)
    ensures !ParseRoot(c, log, field, root, d).thrown
    decreases root, 1, |root.children| + 1
  {
    if IsDefaultNamespace(root) {
      ChildrenComplete(c, log, field, root, d, 0);
    }
  }

  lemma {:induction false} ChildrenComplete(c: ReaderContext, log: seq<Effect>, field: Option<Delegate>, root: Element, d: Delegate, i: nat)
    requires ImportsResolve(c, root)
    requires i <= |root.children|
    ensures !ParseChildrenFrom(c, log, field, root, d, i).thrown
    decreases root, 1, |root.children| - i
  {
    if i < |root.children| {
      assert root.children[i].ElementNode? ==> ImportsResolve(c, root.children[i].element);
      VisitCompletes(c, log, field, root.children[i], d);
      var visited := VisitChild(c, log, field, root.children[i], d);
      ChildrenComplete(c, visited.log, visited.delegate, root, d, i + 1);
    }
  }

  lemma {:induction false} VisitCompletes(c: ReaderContext, log: seq<Effect>, field: Option<Delegate>, node: Node, d: Delegate)
    requires node.ElementNode? ==> ImportsResolve(c, node.element)
    ensures !VisitChild(c, log, field, node, d).thrown
    decreases node, 4, 0
  {
    match node
    case OtherNode(_) =>
    case ElementNode(e) =>
      if IsDefaultNamespace(e) {
        DispatchCompletes(c, log, field, e, d);
      }
  }

  lemma {:induction false} DispatchCompletes(c: ReaderContext, log: seq<Effect>, field: Option<Delegate>, e: Element, d: Delegate)
    requires IsDefaultNamespace(e) && ImportsResolve(c, e)
    ensures !DispatchDefault(c, log, field, e, d).thrown
    decreases e, 3, 0
  {
    if NodeNameEquals(e, ImportElement) {
    } else if !NodeNameEquals(e, AliasElement) && !NodeNameEquals(e, BeanElement) && NodeNameEquals(e, NestedBeansElement) {
      SubtreeCompletes(c, log, field, e);
    }
  }

  /**
   * Stack discipline: when the sub-tree's import locations resolve and the root is not skipped,
   * the sub-tree returns with the `delegate` field at the value it had on entry, however deep the
   * nesting.
   */
  lemma DelegateStackDiscipline(c: ReaderContext, log: seq<Effect>, current: Option<Delegate>, root: Element)
    requires ImportsResolve(c, root)
    requires !SkippedByProfile(c, root)
    ensures var r := RegisterSubtree(c, log, current, root);
      !r.thrown && r.delegate == current
  {
    SubtreeCompletes(c, log, current, root);
  }

  /** An element that `parseDefaultElement` hands back to `doRegisterBeanDefinitions`. */
  predicate RoutedToNestedBeans(e: Element)
  {
    && IsDefaultNamespace(e)
    && !NodeNameEquals(e, ImportElement) && !NodeNameEquals(e, AliasElement) && !NodeNameEquals(e, BeanElement)
    && NodeNameEquals(e, NestedBeansElement)
  }

  /**
   * A nested `<beans>` child skipped by profile returns before the restore: the loop goes on to
   * the next child with that element's own delegate in the field, and nothing logged.
   */
  lemma SkippedBeansLeavesItsDelegate(c: ReaderContext, log: seq<Effect>, field: Option<Delegate>, root: Element, d: Delegate, i: nat)
    requires i < |root.children| && root.children[i].ElementNode?
    requires RoutedToNestedBeans(root.children[i].element) && SkippedByProfile(c, root.children[i].element)
    ensures ParseChildrenFrom(c, log, field, root, d, i)
      == ParseChildrenFrom(c, log, Some(Delegate(root.children[i].element, field)), root, d, i + 1)
  {
    var skipped := root.children[i].element;
    assert VisitChild(c, log, field, root.children[i], d) == RegisterSubtree(c, log, field, skipped);
    assert RegisterSubtree(c, log, field, skipped) == Run(log, Some(Delegate(skipped, field)), false);
  }

  /**
   * The next nested `<beans>` reads its parent from the field: after a skipped sibling it is
   * registered as if entered with the skipped element's delegate, so its own delegate falls back
   * to the skipped element's defaults rather than the enclosing one's.
   */
  lemma SkippedSiblingBecomesParent(c: ReaderContext, log: seq<Effect>, field: Option<Delegate>, root: Element, d: Delegate, i: nat)
    requires i + 1 < |root.children| && root.children[i].ElementNode? && root.children[i + 1].ElementNode?
    requires RoutedToNestedBeans(root.children[i].element) && SkippedByProfile(c, root.children[i].element)
    requires RoutedToNestedBeans(root.children[i + 1].element)
    ensures var inherited := Some(Delegate(root.children[i].element, field));
      var next := RegisterSubtree(c, log, inherited, root.children[i + 1].element);
      ParseChildrenFrom(c, log, field, root, d, i)
        == if next.thrown then next else ParseChildrenFrom(c, next.log, next.delegate, root, d, i + 2)
  {
    var inherited := Some(Delegate(root.children[i].element, field));
    SkippedBeansLeavesItsDelegate(c, log, field, root, d, i);
    assert VisitChild(c, log, inherited, root.children[i + 1], d) == RegisterSubtree(c, log, inherited, root.children[i + 1].element);
  }

  /**
   * An instance of the above: the custom element inside `second` is parsed with a delegate whose
   * parent is the skipped sibling's, not the enclosing one's.
   */
  lemma SkippedSiblingExample(c: ReaderContext, top: Element, skipped: Element, second: Element, custom: Element)
    requires !c.environment.acceptsProfiles(["dev"])
    requires skipped == Element("beans", "beans", "", map[ProfileAttribute := "dev"], [])
    requires custom == Element("x:y", "y", "urn:x", map[], [])
    requires second == Element("beans", "beans", "", map[], [ElementNode(custom)])
    requires top == Element("beans", "beans", "", map[], [ElementNode(skipped), ElementNode(second)])
    ensures RegisterSubtree(c, [], None, top).log
      == [ PreProcess(top), PreProcess(second),
           CustomParse(custom, Delegate(second, Some(Delegate(skipped, Some(Delegate(top, None)))))),
           PostProcess(second), PostProcess(top) ]
  {
    var dTop := Delegate(top, None);
    var dSkipped := Delegate(skipped, Some(dTop));
    var dSecond := Delegate(second, Some(dSkipped));
    var l1 := [PreProcess(top)];
    NoProfile(c, top);
    SkippedVisit(c, l1, dTop, skipped);
    SecondVisit(c, l1, dSkipped, dTop, second, custom);
    var afterSkip := Run(l1, Some(dSkipped), false);
    var afterSecond := Run(l1 + [PreProcess(second), CustomParse(custom, dSecond), PostProcess(second)], Some(dSkipped), false);
    assert top.children[0] == ElementNode(skipped) && top.children[1] == ElementNode(second);
    assert ParseChildrenFrom(c, afterSecond.log, afterSecond.delegate, top, dTop, 2) == afterSecond;
    assert ParseChildrenFrom(c, l1, Some(dSkipped), top, dTop, 1) == afterSecond;
    assert ParseChildrenFrom(c, l1, Some(dTop), top, dTop, 0) == afterSecond;
    assert [] + [PreProcess(top)] == l1;
    assert ParseRoot(c, l1, Some(dTop), top, dTop) == afterSecond;
  }

  lemma NoProfile(c: ReaderContext, e: Element)
    requires ProfileAttribute !in e.attributes
    ensures !SkippedByProfile(c, e)
  {
    assert GetAttribute(e, ProfileAttribute) == "";
  }

  lemma NestedBeansDispatch(c: ReaderContext, log: seq<Effect>, field: Option<Delegate>, e: Element, d: Delegate)
    requires e.nodeName == NestedBeansElement && e.localName == NestedBeansElement && e.namespaceUri == ""
    ensures VisitChild(c, log, field, ElementNode(e), d) == RegisterSubtree(c, log, field, e)
  {
  }

  lemma SkippedVisit(c: ReaderContext, log: seq<Effect>, dTop: Delegate, skipped: Element)
    requires !c.environment.acceptsProfiles(["dev"])
    requires skipped == Element("beans", "beans", "", map[ProfileAttribute := "dev"], [])
    ensures VisitChild(c, log, Some(dTop), ElementNode(skipped), dTop) == Run(log, Some(Delegate(skipped, Some(dTop))), false)
  {
    DevProfile();
    assert GetAttribute(skipped, ProfileAttribute) == "dev";
    assert !IsWhitespace("dev"[0]);
    assert SkippedByProfile(c, skipped);
    NestedBeansDispatch(c, log, Some(dTop), skipped, dTop);
  }

  lemma SecondVisit(c: ReaderContext, log: seq<Effect>, dSkipped: Delegate, dTop: Delegate, second: Element, custom: Element)
    requires custom == Element("x:y", "y", "urn:x", map[], [])
    requires second == Element("beans", "beans", "", map[], [ElementNode(custom)])
    ensures var dSecond := Delegate(second, Some(dSkipped));
      VisitChild(c, log, Some(dSkipped), ElementNode(second), dTop)
        == Run(log + [PreProcess(second), CustomParse(custom, dSecond), PostProcess(second)], Some(dSkipped), false)
  {
    var dSecond := Delegate(second, Some(dSkipped));
    NoProfile(c, second);
    NestedBeansDispatch(c, log, Some(dSkipped), second, dTop);
    assert !IsDefaultNamespace(custom);
    var l2 := log + [PreProcess(second)];
    assert VisitChild(c, l2, Some(dSecond), second.children[0], dSecond) == Run(l2 + [CustomParse(custom, dSecond)], Some(dSecond), false);
    assert ParseChildrenFrom(c, l2 + [CustomParse(custom, dSecond)], Some(dSecond), second, dSecond, 1)
      == Run(l2 + [CustomParse(custom, dSecond)], Some(dSecond), false);
    assert ParseRoot(c, l2, Some(dSecond), second, dSecond) == Run(l2 + [CustomParse(custom, dSecond)], Some(dSecond), false);
  }

  lemma DevProfile()
    ensures TokenizeToStringArray("dev", MultiValueAttributeDelimiters) == ["dev"]
  {
    var delims := set c | c in MultiValueAttributeDelimiters;
    assert 'd' !in delims && 'e' !in delims && 'v' !in delims;
    assert "dev"[0] == 'd' && "dev"[2] == 'v';
    assert IsToken("dev", delims);
    SingleToken("dev", MultiValueAttributeDelimiters);
  }

  // ---------------------------------------------------------------- traversal and dispatch

  /** The element nodes of `nodes`, in document order. */
  function ElementsOf(nodes: seq<Node>): seq<Element>
  {
    if nodes == [] then []
    else (if nodes[0].ElementNode? then [nodes[0].element] else []) + ElementsOf(nodes[1..])
  }

  /** One custom-parser call per element, in order, all with delegate `d`. */
  function CustomParses(es: seq<Element>, d: Delegate): seq<Effect>
  {
    if es == [] then [] else [CustomParse(es[0], d)] + CustomParses(es[1..], d)
  }

  /**
   * Children whose elements are all outside the default namespace: each element child (and
   * no other node) goes to the custom parser once, in index order, with the enclosing delegate.
   */
  lemma {:induction false} CustomChildrenParsedInOrder(c: ReaderContext, log: seq<Effect>, field: Option<Delegate>, root: Element, d: Delegate, i: nat)
    requires i <= |root.children|
    requires forall k :: i <= k < |root.children| && root.children[k].ElementNode? ==> !IsDefaultNamespace(root.children[k].element)
    ensures ParseChildrenFrom(c, log, field, root, d, i) == Run(log + CustomParses(ElementsOf(root.children[i..]), d), field, false)
    decreases |root.children| - i
  {
    var rest := root.children[i..];
    if i < |root.children| {
      var visited := VisitChild(c, log, field, root.children[i], d);
      CustomChildrenParsedInOrder(c, visited.log, field, root, d, i + 1);
      assert rest[1..] == root.children[i + 1..];
      if root.children[i].ElementNode? {
        assert ElementsOf(rest) == [root.children[i].element] + ElementsOf(root.children[i + 1..]);
      } else {
        assert ElementsOf(rest) == ElementsOf(root.children[i + 1..]);
      }
    } else {
      assert rest == [];
    }
  }

  /**
   * A default root that is not skipped: pre-hook, each custom element child in order under a
   * delegate whose parent is the field's value on entry, post-hook, and the field restored.
   */
  lemma DefaultRootWithCustomChildren(c: ReaderContext, log: seq<Effect>, current: Option<Delegate>, root: Element)
    requires IsDefaultNamespace(root) && !SkippedByProfile(c, root)
    requires forall k :: 0 <= k < |root.children| && root.children[k].ElementNode? ==> !IsDefaultNamespace(root.children[k].element)
    ensures RegisterSubtree(c, log, current, root)
      == Run(log + [PreProcess(root)] + CustomParses(ElementsOf(root.children), Delegate(root, current)) + [PostProcess(root)], current, false)
  {
    var child := Delegate(root, current);
    CustomChildrenParsedInOrder(c, log + [PreProcess(root)], Some(child), root, child, 0);
    assert root.children[0..] == root.children;
  }

  /** A root outside the default namespace is handed whole to the custom parser, once; no child is visited. */
  lemma CustomRootHandedWhole(c: ReaderContext, log: seq<Effect>, current: Option<Delegate>, root: Element)
    requires !IsDefaultNamespace(root)
    ensures RegisterSubtree(c, log, current, root)
      == Run(log + [PreProcess(root), CustomParse(root, Delegate(root, current)), PostProcess(root)], current, false)
  {
  }

  /** A default element whose name is none of import, alias, bean, beans is ignored without an error. */
  lemma UnknownDefaultElementIgnored(c: ReaderContext, log: seq<Effect>, field: Option<Delegate>, e: Element, d: Delegate)
    requires !NodeNameEquals(e, ImportElement) && !NodeNameEquals(e, AliasElement)
    requires !NodeNameEquals(e, BeanElement) && !NodeNameEquals(e, NestedBeansElement)
    ensures DispatchDefault(c, log, field, e, d) == Run(log, field, false)
  {
  }

  /**
   * Only a nested `beans` element can move the `delegate` field: an element named import, alias
   * or bean, or any other name, leaves it where it was.
   */
  lemma OnlyNestedBeansMovesDelegate(c: ReaderContext, log: seq<Effect>, field: Option<Delegate>, e: Element, d: Delegate)
    ensures DispatchDefault(c, log, field, e, d).delegate != field ==>
      && NodeNameEquals(e, NestedBeansElement)
      && !NodeNameEquals(e, ImportElement) && !NodeNameEquals(e, AliasElement) && !NodeNameEquals(e, BeanElement)
  {
  }

  // ---------------------------------------------------------------- bean registration

  /**
   * An element that `parseDefaultElement` hands to `processBeanDefinition`: in the default
   * namespace, named `bean` by its qualified or its local name (`bean`, `beans:bean`), and by
   * neither name `import` or `alias`, which are tested first.
   */
  predicate RoutedToBean(e: Element)
  {
    IsDefaultNamespace(e) && !NodeNameEquals(e, ImportElement) && !NodeNameEquals(e, AliasElement) && NodeNameEquals(e, BeanElement)
  }

  /** A child that is not an element (text, a comment), or a bean element the parser turns into a holder. */
  predicate TextOrParsedBean(c: ReaderContext, n: Node, d: Delegate)
  {
    n.ElementNode? ==> RoutedToBean(n.element) && c.parsing.parseBeanDefinitionElement(n.element, d).Some?
  }

  /**
   * Children that are bean elements the parser turns into holders, mixed with any text and
   * comment nodes: as many registry calls and component events as there are element children,
   * whatever the registry answers, and the field is untouched.
   */
  lemma {:induction false} EveryParsedBeanIsRegistered(c: ReaderContext, log: seq<Effect>, field: Option<Delegate>, root: Element, d: Delegate, i: nat)
    requires i <= |root.children|
    requires forall k :: i <= k < |root.children| ==> TextOrParsedBean(c, root.children[k], d)
    ensures var r := ParseChildrenFrom(c, log, field, root, d, i);
      && !r.thrown && r.delegate == field
      && CountIf(r.log[|log|..], IsBeanRegistration) == |ElementsOf(root.children[i..])|
      && CountIf(r.log[|log|..], IsComponentEvent) == |ElementsOf(root.children[i..])|
    decreases |root.children| - i
  {
    if i == |root.children| {
      assert root.children[i..] == [];
      assert ParseChildrenFrom(c, log, field, root, d, i).log[|log|..] == [];
    } else {
      var node := root.children[i];
      assert TextOrParsedBean(c, node, d);
      ElementsOfStep(root.children, i);
      if node.ElementNode? {
        BeanVisit(c, log, field, node, d);
        var next := BeanLog(c, log, node.element, d);
        ChildStep(c, log, field, root, d, i);
        BeanCounts(c, log, node.element, d);
        EveryParsedBeanIsRegistered(c, next, field, root, d, i + 1);
        CountsAcrossStep(log, next, ParseChildrenFrom(c, next, field, root, d, i + 1).log);
      } else {
        ChildStep(c, log, field, root, d, i);
        EveryParsedBeanIsRegistered(c, log, field, root, d, i + 1);
      }
    }
  }

  /** Registrations and events counted over `log..final` are those over `log..next` plus `next..final`. */
  lemma CountsAcrossStep(log: seq<Effect>, next: seq<Effect>, final: seq<Effect>)
    requires log <= next <= final
    ensures CountIf(final[|log|..], IsBeanRegistration)
      == CountIf(next[|log|..], IsBeanRegistration) + CountIf(final[|next|..], IsBeanRegistration)
    ensures CountIf(final[|log|..], IsComponentEvent)
      == CountIf(next[|log|..], IsComponentEvent) + CountIf(final[|next|..], IsComponentEvent)
  {
    assert final[|log|..] == next[|log|..] + final[|next|..];
    CountIfAppend(next[|log|..], final[|next|..], IsBeanRegistration);
    CountIfAppend(next[|log|..], final[|next|..], IsComponentEvent);
  }

  /** The element children from index `i` on: the child at `i` if it is one, then the rest. */
  lemma ElementsOfStep(nodes: seq<Node>, i: nat)
    requires i < |nodes|
    ensures |ElementsOf(nodes[i..])| == (if nodes[i].ElementNode? then 1 else 0) + |ElementsOf(nodes[i + 1..])|
  {
    assert nodes[i..][0] == nodes[i];
    assert nodes[i..][1..] == nodes[i + 1..];
  }

  /** One step of the child loop when the child does not throw. */
  lemma ChildStep(c: ReaderContext, log: seq<Effect>, field: Option<Delegate>, root: Element, d: Delegate, i: nat)
    requires i < |root.children|
    requires !VisitChild(c, log, field, root.children[i], d).thrown
    ensures var visited := VisitChild(c, log, field, root.children[i], d);
      ParseChildrenFrom(c, log, field, root, d, i) == ParseChildrenFrom(c, visited.log, visited.delegate, root, d, i + 1)
  {
  }

  /** A bean the parser turns into a holder: one registry call and one component event. */
  lemma BeanCounts(c: ReaderContext, log: seq<Effect>, e: Element, d: Delegate)
    requires c.parsing.parseBeanDefinitionElement(e, d).Some?
    ensures CountIf(BeanLog(c, log, e, d)[|log|..], IsBeanRegistration) == 1
    ensures CountIf(BeanLog(c, log, e, d)[|log|..], IsComponentEvent) == 1
  {
    BeanEffects(c, log, e, d);
  }

  /** An element child routed to the bean branch is processed with the enclosing delegate; the field is untouched. */
  lemma BeanVisit(c: ReaderContext, log: seq<Effect>, field: Option<Delegate>, node: Node, d: Delegate)
    requires node.ElementNode? && RoutedToBean(node.element)
    ensures VisitChild(c, log, field, node, d) == Run(BeanLog(c, log, node.element, d), field, false)
  {
  }

  /** `beans:bean` in the beans namespace matches `bean` by its local name and goes to the bean branch. */
  lemma PrefixedBeanIsRoutedToBean(c: ReaderContext, log: seq<Effect>, field: Option<Delegate>, e: Element, d: Delegate)
    requires e.nodeName == "beans:bean" && e.localName == BeanElement && e.namespaceUri == BeansNamespaceUri
    ensures RoutedToBean(e)
    ensures DispatchDefault(c, log, field, e, d) == Run(BeanLog(c, log, e, d), field, false)
  {
  }

  /**
   * One `<bean>`: a null holder leaves no trace; otherwise exactly one registry call with the
   * decorated holder, one error exactly when the registry refuses it, and the component event
   * in every case, last.
   */
  lemma BeanEffects(c: ReaderContext, log: seq<Effect>, e: Element, d: Delegate)
    ensures var parsed := c.parsing.parseBeanDefinitionElement(e, d);
      var added := BeanLog(c, log, e, d)[|log|..];
      && (parsed.None? ==> added == [])
      && (parsed.Some? ==>
            var holder := c.parsing.decorateBeanDefinitionIfRequired(e, parsed.value, d);
            && added[0] == RegisterBeanCall(holder)
            && added[|added| - 1] == ComponentRegistered(holder)
            && (!c.registry.registerBeanDefinition(log, holder) ==>
                  added == [RegisterBeanCall(holder), Error(BeanFailedMessage(holder.beanName), e), ComponentRegistered(holder)])
            && (c.registry.registerBeanDefinition(log, holder) ==>
                  added == [RegisterBeanCall(holder), ComponentRegistered(holder)])
            && CountIf(added, IsBeanRegistration) == 1
            && CountIf(added, IsComponentEvent) == 1
            && CountIf(added, IsError) == (if c.registry.registerBeanDefinition(log, holder) then 0 else 1))
  {
    var parsed := c.parsing.parseBeanDefinitionElement(e, d);
    var added := BeanLog(c, log, e, d)[|log|..];
    if parsed.Some? {
      var holder := c.parsing.decorateBeanDefinitionIfRequired(e, parsed.value, d);
      if c.registry.registerBeanDefinition(log, holder) {
        assert added == [RegisterBeanCall(holder), ComponentRegistered(holder)];
      } else {
        assert added == [RegisterBeanCall(holder), Error(BeanFailedMessage(holder.beanName), e), ComponentRegistered(holder)];
      }
      CountIfUpToThree(added, IsBeanRegistration);
      CountIfUpToThree(added, IsComponentEvent);
      CountIfUpToThree(added, IsError);
    } else {
      assert added == [];
    }
  }

  // ---------------------------------------------------------------- aliases

  /**
   * Both attribute checks always run: one error per blank attribute, the registry called and the
   * event fired exactly when both have text, and one more error when the registry refuses.
   */
  lemma AliasValidationNotShortCircuited(c: ReaderContext, log: seq<Effect>, e: Element)
    ensures var name := GetAttribute(e, NameAttribute);
      var alias := GetAttribute(e, AliasAttribute);
      var valid := HasText(name) && HasText(alias);
      var added := AliasLog(c, log, e)[|log|..];
      && CountIf(added, IsError)
           == (if HasText(name) then 0 else 1) + (if HasText(alias) then 0 else 1)
              + (if valid && !c.registry.registerAlias(log, name, alias) then 1 else 0)
      && (RegisterAliasCall(name, alias) in added <==> valid)
      && (AliasRegistered(name, alias, e) in added <==> valid)
  {
    var name := GetAttribute(e, NameAttribute);
    var alias := GetAttribute(e, AliasAttribute);
    var added := AliasLog(c, log, e)[|log|..];
    var nameErrors: seq<Effect> := if HasText(name) then [] else [Error(EmptyNameMessage, e)];
    var aliasErrors: seq<Effect> := if HasText(alias) then [] else [Error(EmptyAliasMessage, e)];
    if HasText(name) && HasText(alias) {
      if c.registry.registerAlias(log, name, alias) {
        assert added == [RegisterAliasCall(name, alias), AliasRegistered(name, alias, e)];
      } else {
        assert added == [RegisterAliasCall(name, alias), Error(AliasFailedMessage(name, alias), e), AliasRegistered(name, alias, e)];
      }
    } else {
      assert added == nameErrors + aliasErrors;
    }
    CountIfUpToThree(added, IsError);
  }

  /** A blank name and a blank alias give exactly the two errors, in that order, and nothing else. */
  lemma BlankAliasGivesTwoErrors(c: ReaderContext, log: seq<Effect>, e: Element)
    requires !HasText(GetAttribute(e, NameAttribute)) && !HasText(GetAttribute(e, AliasAttribute))
    ensures AliasLog(c, log, e) == log + [Error(EmptyNameMessage, e), Error(EmptyAliasMessage, e)]
  {
  }

  // ---------------------------------------------------------------- imports

  /** A blank `resource` gives exactly one error and no load and no event. */
  lemma BlankImportLocation(c: ReaderContext, log: seq<Effect>, e: Element)
    requires !HasText(GetAttribute(e, ResourceAttribute))
    ensures ImportOutcome(c, log, e) == (log + [Error(EmptyLocationMessage, e)], false)
  {
  }

  /** A placeholder that cannot be resolved escapes before anything is loaded or reported. */
  lemma UnresolvablePlaceholderEscapes(c: ReaderContext, log: seq<Effect>, e: Element)
    requires HasText(GetAttribute(e, ResourceAttribute))
    requires c.environment.resolveRequiredPlaceholders(GetAttribute(e, ResourceAttribute)).None?
    ensures ImportOutcome(c, log, e) == (log, true)
  {
  }

  /** A location that is not a URL and does not parse as a URI is treated as relative. */
  lemma MalformedUriIsRelative(c: ReaderContext, location: string)
    requires !c.locations.isUrl(location) && c.locations.toUri(location).None?
    ensures !IsAbsoluteLocation(c, location)
  {
  }

  /**
   * An import with a resolvable location attempts at most one load, reports at most one error,
   * and always ends with the import event carrying the resolved location and the duplicate-free
   * list of resources the load branch collected (given branch by branch in the lemmas below).
   */
  lemma ImportEventAlwaysFires(c: ReaderContext, log: seq<Effect>, e: Element)
    requires HasText(GetAttribute(e, ResourceAttribute))
    requires c.environment.resolveRequiredPlaceholders(GetAttribute(e, ResourceAttribute)).Some?
    ensures !ImportOutcome(c, log, e).1
    ensures var resolved := c.environment.resolveRequiredPlaceholders(GetAttribute(e, ResourceAttribute)).value;
      var added := ImportOutcome(c, log, e).0[|log|..];
      && added[|added| - 1].ImportProcessed?
      && added[|added| - 1].location == resolved
      && added[|added| - 1].source == e
      && NoDuplicates(added[|added| - 1].resources)
      && added[|added| - 1].resources
           == (if IsAbsoluteLocation(c, resolved) then ImportAbsolute(c, log, e, resolved) else ImportRelative(c, log, e, resolved)).1
      && CountIf(added, IsError) <= 1
      && CountIf(added, IsLoad) <= 1
  {
    var resolved := c.environment.resolveRequiredPlaceholders(GetAttribute(e, ResourceAttribute)).value;
    var loaded :=
      if IsAbsoluteLocation(c, resolved) then ImportAbsolute(c, log, e, resolved)
      else ImportRelative(c, log, e, resolved);
    var event := ImportProcessed(resolved, loaded.1, e);
    assert ImportOutcome(c, log, e) == (loaded.0 + [event], false);
    var loadEffects := loaded.0[|log|..];
    LoadEffectsCounted(c, log, e, resolved);
    var added := ImportOutcome(c, log, e).0[|log|..];
    assert added == loadEffects + [event];
    CountIfAppend(loadEffects, [event], IsError);
    CountIfAppend(loadEffects, [event], IsLoad);
  }

  lemma LoadEffectsCounted(c: ReaderContext, log: seq<Effect>, e: Element, location: string)
    ensures var loaded :=
        if IsAbsoluteLocation(c, location) then ImportAbsolute(c, log, e, location)
        else ImportRelative(c, log, e, location);
      && CountIf(loaded.0[|log|..], IsError) <= 1
      && CountIf(loaded.0[|log|..], IsLoad) <= 1
  {
    var loaded :=
      if IsAbsoluteLocation(c, location) then ImportAbsolute(c, log, e, location)
      else ImportRelative(c, log, e, location);
    var added := loaded.0[|log|..];
    assert |added| <= 2;
    assert |added| == 2 ==> IsLoad(added[0]) && !IsLoad(added[1]) && !IsError(added[0]);
    CountIfUpToThree(added, IsError);
    CountIfUpToThree(added, IsLoad);
  }

  /** An absolute location whose load fails is reported once, with the URL message, and the event still fires with no resources. */
  lemma AbsoluteImportFailure(c: ReaderContext, log: seq<Effect>, e: Element)
    requires HasText(GetAttribute(e, ResourceAttribute))
    requires c.environment.resolveRequiredPlaceholders(GetAttribute(e, ResourceAttribute)).Some?
    ensures var location := c.environment.resolveRequiredPlaceholders(GetAttribute(e, ResourceAttribute)).value;
      IsAbsoluteLocation(c, location) && c.reader.loadByLocation(log, location).StoreFailure? ==>
        ImportOutcome(c, log, e).0
          == log + [LoadLocation(location), Error(UrlImportFailedMessage(location), e), ImportProcessed(location, [], e)]
  {
  }

  /** An absolute location that loads: the event carries the loader's resources, each once, in order. */
  lemma AbsoluteImportSuccess(c: ReaderContext, log: seq<Effect>, e: Element, location: string, count: nat, resources: seq<Resource>)
    requires HasText(GetAttribute(e, ResourceAttribute))
    requires c.environment.resolveRequiredPlaceholders(GetAttribute(e, ResourceAttribute)) == Some(location)
    requires IsAbsoluteLocation(c, location) && c.reader.loadByLocation(log, location) == Loaded(count, resources)
    ensures ImportOutcome(c, log, e).0 == log + [LoadLocation(location), ImportProcessed(location, AddAll([], resources), e)]
    ensures forall x :: x in AddAll([], resources) <==> x in resources
  {
  }

  /**
   * A relative location whose load fails, from the existing sibling resource or from the path
   * applied to the base URL, is reported once with the relative-location message, and the event
   * still fires with no resources.
   */
  lemma RelativeImportFailure(c: ReaderContext, log: seq<Effect>, e: Element, location: string)
    requires HasText(GetAttribute(e, ResourceAttribute))
    requires c.environment.resolveRequiredPlaceholders(GetAttribute(e, ResourceAttribute)) == Some(location)
    requires !IsAbsoluteLocation(c, location) && c.locations.createRelative(c.resource, location).Some?
    ensures var relativeResource := c.locations.createRelative(c.resource, location).value;
      c.locations.resourceExists(relativeResource) && c.reader.loadByResource(log, relativeResource).StoreFailure? ==>
        ImportOutcome(c, log, e).0
          == log + [LoadResource(relativeResource), Error(RelativeImportFailedMessage(location), e), ImportProcessed(location, [], e)]
    ensures var relativeResource := c.locations.createRelative(c.resource, location).value;
      && !c.locations.resourceExists(relativeResource) && c.locations.getUrl(c.resource).Some?
      && c.reader.loadByLocation(log, ApplyRelativePath(c.locations.getUrl(c.resource).value, location)).StoreFailure? ==>
        ImportOutcome(c, log, e).0
          == log + [ LoadLocation(ApplyRelativePath(c.locations.getUrl(c.resource).value, location)),
                     Error(RelativeImportFailedMessage(location), e), ImportProcessed(location, [], e) ]
  {
  }

  /** A relative location loaded against the base URL: the event carries the loader's resources, each once. */
  lemma RelativeImportFromBaseUrl(c: ReaderContext, log: seq<Effect>, e: Element, location: string, base: string, count: nat, resources: seq<Resource>)
    requires HasText(GetAttribute(e, ResourceAttribute))
    requires c.environment.resolveRequiredPlaceholders(GetAttribute(e, ResourceAttribute)) == Some(location)
    requires !IsAbsoluteLocation(c, location) && c.locations.createRelative(c.resource, location).Some?
    requires !c.locations.resourceExists(c.locations.createRelative(c.resource, location).value)
    requires c.locations.getUrl(c.resource) == Some(base)
    requires c.reader.loadByLocation(log, ApplyRelativePath(base, location)) == Loaded(count, resources)
    ensures ImportOutcome(c, log, e).0
      == log + [LoadLocation(ApplyRelativePath(base, location)), ImportProcessed(location, AddAll([], resources), e)]
  {
  }

  /**
   * A relative location first tries the resource created relative to the current one; only if
   * that does not exist does it load the path applied against the current resource's URL.
   */
  lemma RelativeImportTriesSiblingFirst(c: ReaderContext, log: seq<Effect>, e: Element, location: string, relativeResource: Resource)
    requires c.locations.createRelative(c.resource, location) == Some(relativeResource)
    ensures c.locations.resourceExists(relativeResource) && c.reader.loadByResource(log, relativeResource).Loaded? ==>
      ImportRelative(c, log, e, location) == (log + [LoadResource(relativeResource)], [relativeResource])
    ensures !c.locations.resourceExists(relativeResource) && c.locations.getUrl(c.resource).Some? ==>
      ImportRelative(c, log, e, location).0[|log|]
        == LoadLocation(ApplyRelativePath(c.locations.getUrl(c.resource).value, location))
  {
    assert AddAll([], [relativeResource]) == [relativeResource];
  }

  /** The I/O failures of `createRelative` and `getURL` are both reported with the current-location message. */
  lemma UnresolvableCurrentResource(c: ReaderContext, log: seq<Effect>, e: Element, location: string)
    requires c.locations.createRelative(c.resource, location).None?
      || (&& c.locations.createRelative(c.resource, location).Some?
          && !c.locations.resourceExists(c.locations.createRelative(c.resource, location).value)
          && c.locations.getUrl(c.resource).None?)
    ensures ImportRelative(c, log, e, location) == (log + [Error(UnresolvedCurrentResourceMessage, e)], [])
  {
  }

  // ---------------------------------------------------------------- string helpers

  /** The relative-path rule: `a/b.cfg` with `c.cfg` gives `a/c.cfg`. */
  lemma ApplyRelativePathExample()
    ensures ApplyRelativePath("a/b.cfg", "c.cfg") == "a/c.cfg"
  {
    var path := "a/b.cfg";
    assert LastIndexOf(path[..2], '/') == 1;
    assert LastIndexOf(path[..3], '/') == 1 by { assert path[..3][..2] == path[..2]; }
    assert LastIndexOf(path[..4], '/') == 1 by { assert path[..4][..3] == path[..3]; }
    assert LastIndexOf(path[..5], '/') == 1 by { assert path[..5][..4] == path[..4]; }
    assert LastIndexOf(path[..6], '/') == 1 by { assert path[..6][..5] == path[..5]; }
    assert LastIndexOf(path, '/') == 1 by { assert path[..6] == path[..|path| - 1]; }
    assert path[..1] + "/" + "c.cfg" == "a/c.cfg";
  }

  /** A path with a `/` keeps everything up to and including its last `/`, then the relative path. */
  lemma ApplyRelativePathKeepsFolder(path: string, relativePath: string)
    requires '/' in path
    requires relativePath == [] || relativePath[0] != '/'
    ensures var k := LastIndexOf(path, '/');
      ApplyRelativePath(path, relativePath) == path[..k + 1] + relativePath && '/' !in path[k + 1..]
  {
    var k := LastIndexOf(path, '/');
    var i :| 0 <= i < |path| && path[i] == '/';
    assert k >= i;
    assert path[..k + 1] == path[..k] + "/" by {
      assert path[..k + 1] == path[..k] + [path[k]];
    }
    assert ApplyRelativePath(path, relativePath) == path[..k] + "/" + relativePath;
    var tail := path[k + 1..];
    forall j | 0 <= j < |tail|
      ensures tail[j] != '/'
    {
      assert tail[j] == path[k + 1 + j];
    }
  }
}
