/**
 * How a descriptor-based Kotlin reference resolves to PSI elements. The analysis that
 * produces a binding context, the reference's own target descriptors, the package lookup
 * and the declaration search are the IDE's; they are passed in as functions. Collections
 * are sequences: Kotlin's `toSet()` keeps the first occurrence of each element in order,
 * and so does `Dedup`.
 */
module KtReference {
  import opened Wrappers

  /** A PSI element, known by its identity. */
  datatype PsiElement = PsiElement(id: nat)

  /** The element a reference sits on, and whether it is a `KtReferenceExpression`. */
  datatype KtElement = KtElement(id: nat, isReferenceExpression: bool)

  /** A declaration descriptor: a package view (by its fully qualified name) or any other declaration. */
  datatype DeclarationDescriptor = PackageView(fqName: string) | Declaration(id: nat)

  /**
   * A binding context: `BindingContext.EMPTY`, or the result of an analysis with its
   * `LABEL_TARGET` and `AMBIGUOUS_LABEL_TARGET` slices.
   */
  datatype BindingContext =
    | Empty
    | Analyzed(labelTarget: map<KtElement, PsiElement>, ambiguousLabelTarget: map<KtElement, seq<PsiElement>>)

  /** `context[LABEL_TARGET, e]`; the empty context holds nothing. */
  function LabelTarget(context: BindingContext, e: KtElement): Option<PsiElement>
  {
    if context.Analyzed? && e in context.labelTarget then Some(context.labelTarget[e]) else None
  }

  /** `context[AMBIGUOUS_LABEL_TARGET, e]`; the empty context holds nothing. */
  function AmbiguousLabelTarget(context: BindingContext, e: KtElement): Option<seq<PsiElement>>
  {
    if context.Analyzed? && e in context.ambiguousLabelTarget then Some(context.ambiguousLabelTarget[e]) else None
  }

  /**
   * The IDE services resolution calls: the partial body analysis of an element, the
   * Java package lookup, and the search for all declarations of a descriptor in the
   * element's resolve scope.
   */
  datatype Host = Host(
    analyze: KtElement -> BindingContext,
    findPackage: string -> Option<PsiElement>,
    allDeclarations: (KtElement, DeclarationDescriptor) -> seq<PsiElement>)

  /** A descriptor-based reference: its element and its `getTargetDescriptors`. */
  datatype Reference = Reference(element: KtElement, targetDescriptors: BindingContext -> seq<DeclarationDescriptor>)

  /** What `resolve` hands back for each element. */
  datatype ResolveResult = KotlinResolveResult(element: PsiElement)

  /** No element occurs twice. */
  predicate Distinct(s: seq<PsiElement>)
  {
    forall i, j :: 0 <= i < j < |s| ==> s[i] != s[j]
  }

  /** `toSet()`: the elements of `s`, each once, in order of first occurrence (`DedupGrows`). */
  function Dedup(s: seq<PsiElement>): (r: seq<PsiElement>)
    ensures Distinct(r)
    ensures forall x :: x in r <==> x in s
    ensures |r| <= |s|
    decreases |s|
  {
    if s == [] then []
    else
      var init := Dedup(s[..|s| - 1]);
      var last := s[|s| - 1];
      assert s == s[..|s| - 1] + [last];
      if last in init then init else init + [last]
  }

  /**
   * Reading more of the input only appends to the de-duplicated elements: each element
   * keeps the place its first occurrence gave it.
   */
  lemma {:induction false} DedupGrows(s: seq<PsiElement>, n: nat)
    requires n <= |s|
    ensures Dedup(s[..n]) <= Dedup(s)
    decreases |s|
  {
    if n < |s| {
      var init := s[..|s| - 1];
      assert init[..n] == s[..n];
      assert s[..|s|] == s;
      DedupGrows(init, n);
    } else {
      assert s[..n] == s;
    }
  }

  /**
   * The single-descriptor overload: a package view gives the package when the Java
   * facade finds one and nothing otherwise; any other descriptor gives all its declarations.
   */
  function ResolveDescriptor(host: Host, ref: Reference, target: DeclarationDescriptor): (r: seq<PsiElement>)
    ensures target.PackageView? ==> |r| <= 1
    ensures target.PackageView? ==> (r == [] <==> host.findPackage(target.fqName).None?)
    ensures target.PackageView? ==> forall x :: x in r ==> host.findPackage(target.fqName) == Some(x)
    ensures target.Declaration? ==> r == host.allDeclarations(ref.element, target)
  {
    if target.PackageView? then
      match host.findPackage(target.fqName)
      case None => []
      case Some(p) => [p]
    else host.allDeclarations(ref.element, target)
  }

  /** `flatMap`: the resolutions of every descriptor, concatenated in order. */
  function FlatMap(host: Host, ref: Reference, targets: seq<DeclarationDescriptor>): (r: seq<PsiElement>)
    ensures forall x :: x in r <==> exists i :: 0 <= i < |targets| && x in ResolveDescriptor(host, ref, targets[i])
    decreases |targets|
  {
    if targets == [] then []
    else
      var n := |targets| - 1;
      var init := FlatMap(host, ref, targets[..n]);
      var last := ResolveDescriptor(host, ref, targets[n]);
      assert forall i :: 0 <= i < n ==> targets[..n][i] == targets[i];
      init + last
  }

  /**
   * `getLabelTargets`: nothing for an element that is not a reference expression; the
   * label target as a singleton when the context has one; otherwise the ambiguous label
   * targets, or nothing.
   */
  function LabelTargets(ref: Reference, context: BindingContext): (r: Option<seq<PsiElement>>)
    ensures !ref.element.isReferenceExpression ==> r == None
    ensures ref.element.isReferenceExpression && LabelTarget(context, ref.element).Some? ==>
              r == Some([LabelTarget(context, ref.element).value])
    ensures ref.element.isReferenceExpression && LabelTarget(context, ref.element).None? ==>
              r == AmbiguousLabelTarget(context, ref.element)
  {
    if !ref.element.isReferenceExpression then None
    else match LabelTarget(context, ref.element)
      case Some(t) => Some([t])
      case None => AmbiguousLabelTarget(context, ref.element)
  }

  /**
   * The overload over a context and its descriptors: with descriptors, the de-duplicated
   * union of their resolutions, whatever the labels say; without, the label targets, or
   * nothing.
   */
  function ResolveWithDescriptors(host: Host, ref: Reference, context: BindingContext, targets: seq<DeclarationDescriptor>): (r: seq<PsiElement>)
    ensures targets != [] ==> Distinct(r)
    ensures targets != [] ==> forall x :: x in r <==> exists i :: 0 <= i < |targets| && x in ResolveDescriptor(host, ref, targets[i])
    ensures targets == [] && LabelTargets(ref, context).Some? ==> r == LabelTargets(ref, context).value
    ensures targets == [] && LabelTargets(ref, context).None? ==> r == []
    ensures targets == [] && !ref.element.isReferenceExpression ==> r == []
  {
    if targets != [] then Dedup(FlatMap(host, ref, targets))
    else match LabelTargets(ref, context)
      case Some(labels) => labels
      case None => []
  }

  /** The overload over a reference alone: analyse its element; an empty context resolves to nothing. */
  function ResolveToPsiElements(host: Host, ref: Reference): (r: seq<PsiElement>)
    ensures host.analyze(ref.element).Empty? ==> r == []
  {
    var context := host.analyze(ref.element);
    if context == Empty then []
    else ResolveWithDescriptors(host, ref, context, ref.targetDescriptors(context))
  }

  /** `resolve`: one result per resolved element, in the same order. */
  function Resolve(host: Host, ref: Reference): (r: seq<ResolveResult>)
    ensures |r| == |ResolveToPsiElements(host, ref)|
    ensures forall i :: 0 <= i < |r| ==> r[i].element == ResolveToPsiElements(host, ref)[i]
  {
    var elements := ResolveToPsiElements(host, ref);
    seq(|elements|, i requires 0 <= i < |elements| => KotlinResolveResult(elements[i]))
  }

  /** Labels play no part once there are descriptors: any two contexts give the same result. */
  lemma DescriptorsIgnoreLabels(host: Host, ref: Reference, context: BindingContext, context': BindingContext, targets: seq<DeclarationDescriptor>)
    requires targets != []
    ensures ResolveWithDescriptors(host, ref, context, targets) == ResolveWithDescriptors(host, ref, context', targets)
  {
  }

  /**
   * A reference with descriptors in an analysed context resolves to distinct results,
   * one for each element some descriptor resolves to.
   */
  lemma ResolveOncePerTarget(host: Host, ref: Reference)
    requires host.analyze(ref.element).Analyzed?
    requires ref.targetDescriptors(host.analyze(ref.element)) != []
    ensures forall i, j :: 0 <= i < j < |Resolve(host, ref)| ==> Resolve(host, ref)[i] != Resolve(host, ref)[j]
    ensures forall x :: KotlinResolveResult(x) in Resolve(host, ref) <==>
              exists k :: 0 <= k < |ref.targetDescriptors(host.analyze(ref.element))| &&
                          x in ResolveDescriptor(host, ref, ref.targetDescriptors(host.analyze(ref.element))[k])
  {
    var r := Resolve(host, ref);
    var elements := ResolveToPsiElements(host, ref);
    forall x
      ensures KotlinResolveResult(x) in r <==> x in elements
    {
      if x in elements {
        var i :| 0 <= i < |elements| && elements[i] == x;
        assert r[i] == KotlinResolveResult(x);
      }
    }
  }

  /**
   * With no descriptors, an element that is a reference expression and has a label
   * target resolves to exactly that target, whatever the ambiguous targets are.
   */
  lemma LabelTargetWins(host: Host, ref: Reference)
    requires host.analyze(ref.element).Analyzed?
    requires ref.targetDescriptors(host.analyze(ref.element)) == []
    requires ref.element.isReferenceExpression
    requires LabelTarget(host.analyze(ref.element), ref.element).Some?
    ensures ResolveToPsiElements(host, ref) == [LabelTarget(host.analyze(ref.element), ref.element).value]
  {
  }

  /** With no descriptors, an element that is not a reference expression resolves to nothing. */
  lemma NonReferenceWithoutDescriptors(host: Host, ref: Reference)
    requires ref.targetDescriptors(host.analyze(ref.element)) == []
    requires !ref.element.isReferenceExpression
    ensures ResolveToPsiElements(host, ref) == []
  {
  }
}
