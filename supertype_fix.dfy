/**
 * The "add function to supertype" quick fix: which supertypes get a candidate signature,
 * in which order, with which modality and body, and how the fix chooses between adding
 * the only candidate and offering a popup. Type checking, descriptor rendering, body
 * templates and PSI lookups are host services, passed in as a `Host`.
 */
module SupertypeFix {
  import opened Wrappers

  // ---------------------------------------------------------------------------------
  // sortSubtypesFirst
  // ---------------------------------------------------------------------------------

  /** `removeAt(i)`: the list without its element at `i`. */
  function RemoveAt<T>(l: seq<T>, i: nat): (r: seq<T>)
    requires i < |l|
    ensures |r| == |l| - 1 && r[..i] == l[..i] && r[i..] == l[i + 1..]
  {
    l[..i] + l[i + 1..]
  }

  /** `add(j, x)`: the list with `x` inserted before index `j`. */
  function AddAt<T>(l: seq<T>, j: nat, x: T): (r: seq<T>)
    requires j <= |l|
    ensures |r| == |l| + 1 && r[..j] == l[..j] && r[j] == x && r[j + 1..] == l[j..]
  {
    l[..j] + [x] + l[j..]
  }

  /**
   * The element at `i` taken out and put back at `j <= i`: the elements before `j` and
   * after `i` stay, the ones from `j` to `i - 1` shift one place right, and the list
   * holds the same elements.
   */
  lemma MoveFacts<T>(l: seq<T>, i: nat, j: nat)
    requires j <= i < |l|
    ensures var r := AddAt(RemoveAt(l, i), j, l[i]);
      && |r| == |l| && r[..j] == l[..j] && r[j] == l[i] && r[j + 1..i + 1] == l[j..i]
      && r[i + 1..] == l[i + 1..] && multiset(r) == multiset(l)
  {
    var a, b, c := l[..j], l[j..i], l[i + 1..];
    assert RemoveAt(l, i)[j..] == b + c;
    assert l[..i] == a + b;
    assert l == a + b + [l[i]] + c;
    MoveParts(a, l[i], b, c);
  }

  /** The parts of a list whose element `x` moved from between `b` and `c` to between `a` and `b`. */
  lemma MoveParts<T>(a: seq<T>, x: T, b: seq<T>, c: seq<T>)
    ensures var r := a + [x] + (b + c);
      && r[..|a|] == a && r[|a|] == x && r[|a| + 1..|a| + |b| + 1] == b && r[|a| + |b| + 1..] == c
      && multiset(r) == multiset(a + b + [x] + c)
  {
    var r := a + [x] + (b + c);
    assert r[|a| + 1..] == b + c;
    assert multiset(r) == multiset(a) + multiset([x]) + multiset(b) + multiset(c);
  }

  /** The first index `k`, from `from` on and before `i`, whose element `l[i]` is a subtype of; `i` when there is none. */
  function FirstSupertypeFrom<T>(l: seq<T>, i: nat, from: nat, isSubtype: (T, T) -> bool): (j: nat)
    requires from <= i < |l|
    ensures from <= j <= i
    ensures j < i ==> isSubtype(l[i], l[j])
    ensures forall k :: from <= k < j ==> !isSubtype(l[i], l[k])
    decreases i - from
  {
    if from == i then i
    else if isSubtype(l[i], l[from]) then from
    else FirstSupertypeFrom(l, i, from + 1, isSubtype)
  }

  /** The first index before `i` whose element `l[i]` is a subtype of; `i` when there is none. */
  function FirstSupertype<T>(l: seq<T>, i: nat, isSubtype: (T, T) -> bool): (j: nat)
    requires i < |l|
    ensures j <= i
    ensures j < i ==> isSubtype(l[i], l[j])
    ensures forall k :: 0 <= k < j ==> !isSubtype(l[i], l[k])
  {
    FirstSupertypeFrom(l, i, 0, isSubtype)
  }

  /** The first supertype index is the one index meeting its three conditions. */
  lemma FirstSupertypeUnique<T>(l: seq<T>, i: nat, j: nat, isSubtype: (T, T) -> bool)
    requires j <= i < |l|
    requires j < i ==> isSubtype(l[i], l[j])
    requires forall k :: 0 <= k < j ==> !isSubtype(l[i], l[k])
    ensures FirstSupertype(l, i, isSubtype) == j
  {
  }

  /** One pass of the outer loop: the element at `i` moves to its first supertype before it. */
  function Step<T>(l: seq<T>, i: nat, isSubtype: (T, T) -> bool): (r: seq<T>)
    requires i < |l|
    ensures |r| == |l|
  {
    var j := FirstSupertype(l, i, isSubtype);
    if j < i then AddAt(RemoveAt(l, i), j, l[i]) else l
  }

  /**
   * A pass changes only positions `0..i`: the element at `i` lands on the first `j < i`
   * whose element it is a subtype of, the elements from there shift right by one, and
   * with no such `j` nothing moves. The list keeps its elements.
   */
  lemma StepMovesToFirstSupertype<T>(l: seq<T>, i: nat, isSubtype: (T, T) -> bool)
    requires i < |l|
    ensures var r, j := Step(l, i, isSubtype), FirstSupertype(l, i, isSubtype);
      && multiset(r) == multiset(l)
      && r[i + 1..] == l[i + 1..] && r[..j] == l[..j] && r[j] == l[i] && r[j + 1..i + 1] == l[j..i]
      && (j == i <==> forall k :: 0 <= k < i ==> !isSubtype(l[i], l[k]))
      && (j == i ==> r == l)
  {
    var j := FirstSupertype(l, i, isSubtype);
    if j < i {
      MoveFacts(l, i, j);
      var r := Step(l, i, isSubtype);
    } else {
      assert l[j + 1..i + 1] == l[j..i];
    }
  }

  /** The list after the passes for indices `1..n - 1`. */
  function Passes<T>(l: seq<T>, n: nat, isSubtype: (T, T) -> bool): (r: seq<T>)
    requires n <= |l| || n <= 1
    ensures |r| == |l|
    decreases n
  {
    if n <= 1 then l else Step(Passes(l, n - 1, isSubtype), n - 1, isSubtype)
  }

  /** Every pass, and so the whole sort, rearranges the list without adding or losing an element. */
  lemma {:induction false} PassesPermutation<T>(l: seq<T>, n: nat, isSubtype: (T, T) -> bool)
    requires n <= |l|
    ensures multiset(Passes(l, n, isSubtype)) == multiset(l)
    decreases n
  {
    if n > 1 {
      PassesPermutation(l, n - 1, isSubtype);
      StepMovesToFirstSupertype(Passes(l, n - 1, isSubtype), n - 1, isSubtype);
    }
  }

  /** The passes after `n` leave the positions at `n` and beyond untouched. */
  lemma {:induction false} PassesKeepTail<T>(l: seq<T>, n: nat, isSubtype: (T, T) -> bool)
    requires n <= |l|
    ensures Passes(l, n, isSubtype)[n..] == l[n..]
    decreases n
  {
    if n > 1 {
      var p := Passes(l, n - 1, isSubtype);
      var r := Passes(l, n, isSubtype);
      PassesKeepTail(l, n - 1, isSubtype);
      StepMovesToFirstSupertype(p, n - 1, isSubtype);
      assert r == Step(p, n - 1, isSubtype);
      assert r[n..] == p[n..];
      assert p[n..] == p[n - 1..][1..];
      assert l[n..] == l[n - 1..][1..];
    }
  }

  /** The subtype relation is transitive, as Kotlin's type checker is. */
  ghost predicate Transitive<T(!new)>(isSubtype: (T, T) -> bool)
  {
    forall x, y, z :: isSubtype(x, y) && isSubtype(y, z) ==> isSubtype(x, z)
  }

  /**
   * Among the first `n` elements, none comes after an element it is a proper subtype of:
   * a later element that is a subtype of an earlier one is also its supertype.
   */
  predicate SubtypesFirst<T>(r: seq<T>, n: nat, isSubtype: (T, T) -> bool)
    requires n <= |r|
  {
    forall a, b :: 0 <= a < b < n && isSubtype(r[b], r[a]) ==> isSubtype(r[a], r[b])
  }

  /** The index before a pass that moved `p[i]` to `j` of the element at `k` after it. */
  lemma StepOrigin<T>(p: seq<T>, r: seq<T>, i: nat, j: nat, k: nat) returns (k': nat)
    requires j < i < |p| == |r| && k <= i
    requires r[..j] == p[..j] && r[j] == p[i] && r[j + 1..i + 1] == p[j..i]
    ensures k' == (if k < j then k else if k == j then i else k - 1) && r[k] == p[k']
  {
    if k < j {
      k' := k;
      assert r[k] == r[..j][k];
    } else if k == j {
      k' := i;
    } else {
      k' := k - 1;
      assert r[k] == r[j + 1..i + 1][k - j - 1];
    }
  }

  /** A pass for index `i` extends the subtypes-first order from the first `i` elements to the first `i + 1`. */
  lemma StepSubtypesFirst<T(!new)>(p: seq<T>, i: nat, isSubtype: (T, T) -> bool)
    requires i < |p| && Transitive(isSubtype) && SubtypesFirst(p, i, isSubtype)
    ensures SubtypesFirst(Step(p, i, isSubtype), i + 1, isSubtype)
  {
    var r, j := Step(p, i, isSubtype), FirstSupertype(p, i, isSubtype);
    StepMovesToFirstSupertype(p, i, isSubtype);
    if j == i {
      assert r == p;
    } else {
      forall a, b | 0 <= a < b < i + 1 && isSubtype(r[b], r[a])
        ensures isSubtype(r[a], r[b])
      {
        var a' := StepOrigin(p, r, i, j, a);
        var b' := StepOrigin(p, r, i, j, b);
        if a == j && b - 1 > j {
          assert isSubtype(p[j], p[b - 1]);
        }
      }
    }
  }

  /** With a transitive subtype relation, the passes put subtypes before their supertypes. */
  lemma {:induction false} PassesSubtypesFirst<T(!new)>(l: seq<T>, n: nat, isSubtype: (T, T) -> bool)
    requires n <= |l| && Transitive(isSubtype)
    ensures SubtypesFirst(Passes(l, n, isSubtype), n, isSubtype)
    decreases n
  {
    if n > 1 {
      PassesSubtypesFirst(l, n - 1, isSubtype);
      StepSubtypesFirst(Passes(l, n - 1, isSubtype), n - 1, isSubtype);
    }
  }

  /**
   * `sortSubtypesFirst`: for each index from 1 on, the element there is removed and
   * re-added in front of the first earlier element it is a subtype of.
   */
  method SortSubtypesFirst<T(!new)>(types: seq<T>, isSubtype: (T, T) -> bool) returns (list: seq<T>)
    ensures list == Passes(types, |types|, isSubtype)
    ensures multiset(list) == multiset(types)
    ensures Transitive(isSubtype) ==> SubtypesFirst(list, |list|, isSubtype)
  {
    list := types;
    var i := 1;
    while i < |list|
      invariant |list| == |types| && 1 <= i && (i <= |types| || i == 1)
      invariant list == Passes(types, i, isSubtype)
    {
      list := MoveToFirstSupertype(list, i, isSubtype);
      i := i + 1;
    }
    if i != |types| {
      assert Passes(types, |types|, isSubtype) == types;
    }
    PassesPermutation(types, |types|, isSubtype);
    if Transitive(isSubtype) {
      PassesSubtypesFirst(types, |types|, isSubtype);
    }
  }

  /**
   * The inner loop of `sortSubtypesFirst` for index `i`: scans `0..i - 1` for the first
   * element `list[i]` is a subtype of and moves `list[i]` there.
   */
  method MoveToFirstSupertype<T>(list0: seq<T>, i: nat, isSubtype: (T, T) -> bool) returns (list: seq<T>)
    requires i < |list0|
    ensures list == Step(list0, i, isSubtype)
  {
    list := list0;
    var currentType := list[i];
    for j := 0 to i
      invariant list == list0
      invariant forall k :: 0 <= k < j ==> !isSubtype(currentType, list[k])
    {
      if isSubtype(currentType, list[j]) {
        list := RemoveAt(list, i);
        list := AddAt(list, j, currentType);
        FirstSupertypeUnique(list0, i, j, isSubtype);
        return;
      }
    }
    FirstSupertypeUnique(list0, i, i, isSubtype);
  }

  // ---------------------------------------------------------------------------------
  // Descriptors and the signature generated for a supertype
  // ---------------------------------------------------------------------------------

  /** Kotlin's `ClassKind`. */
  datatype ClassKind = Class | Interface | EnumClass | EnumEntry | AnnotationClass | Object

  /** Kotlin's `Modality`. */
  datatype Modality = Final | Sealed | Open | Abstract

  /**
   * A class descriptor: its name, kind and modality, whether its type is `Any`, and its
   * `importableFqName` (none for a local class).
   */
  datatype ClassDescriptor = ClassDescriptor(
    name: string, kind: ClassKind, modality: Modality, isAny: bool, importableFqName: Option<string>)

  /** A supertype: its name and the class it stands for, when it is a class (not a type parameter). */
  datatype KotlinType = KotlinType(name: string, declaration: Option<ClassDescriptor>)

  /** A function's return type: unknown (`null`), `Unit`, or another type as rendered in source. */
  datatype ReturnType = Unknown | UnitType | Rendered(text: string)

  /** A function descriptor: its name, containing declaration when it is a class, modality, visibility and return type. */
  datatype FunctionDescriptor = FunctionDescriptor(
    name: string, container: Option<ClassDescriptor>, modality: Modality, visibility: string, returnType: ReturnType)

  /**
   * `generateFunctionSignatureForType`'s modality: abstract in an interface or a sealed
   * class, the class's own modality otherwise. A generated function is never sealed.
   */
  function GeneratedModality(target: ClassDescriptor): (m: Modality)
    ensures m != Sealed
    ensures target.kind == Interface ==> m == Abstract
    ensures m == Abstract || m == target.modality
    ensures m == Abstract <==> target.kind == Interface || target.modality in {Sealed, Abstract}
  {
    if target.kind == Interface || target.modality == Sealed then Abstract else target.modality
  }

  /** `generateFunctionSignatureForType`: the function copied into `target` as a declaration, same name, visibility and return type. */
  function SignatureFor(f: FunctionDescriptor, target: ClassDescriptor): (g: FunctionDescriptor)
    ensures g.container == Some(target) && g.modality == GeneratedModality(target)
    ensures g.name == f.name && g.visibility == f.visibility && g.returnType == f.returnType
  {
    FunctionDescriptor(f.name, Some(target), GeneratedModality(target), f.visibility, f.returnType)
  }

  /** `mapNotNull { it.constructor.declarationDescriptor as? ClassDescriptor }`: the classes of the types, in order. */
  function Declared(types: seq<KotlinType>): (r: seq<ClassDescriptor>)
    ensures |r| <= |types|
    ensures forall c :: c in r <==> exists t :: t in types && t.declaration == Some(c)
    ensures |types| == 1 ==> r == if types[0].declaration.Some? then [types[0].declaration.value] else []
    decreases |types|
  {
    if types == [] then []
    else
      var init := Declared(types[..|types| - 1]);
      var last := types[|types| - 1];
      assert types == types[..|types| - 1] + [last];
      match last.declaration
      case Some(c) => init + [c]
      case None => init
  }

  /** Mapping a concatenation maps each part: the classes keep the order of their types. */
  lemma {:induction false} DeclaredAppend(a: seq<KotlinType>, b: seq<KotlinType>)
    ensures Declared(a + b) == Declared(a) + Declared(b)
    decreases |b|
  {
    if b == [] {
      assert a + b == a;
    } else {
      assert (a + b)[..|a + b| - 1] == a + b[..|b| - 1];
      DeclaredAppend(a, b[..|b| - 1]);
    }
  }

  /** Types that are a rearrangement of each other declare the same classes, as often. */
  lemma {:induction false} DeclaredPermutation(a: seq<KotlinType>, b: seq<KotlinType>)
    requires multiset(a) == multiset(b)
    ensures multiset(Declared(a)) == multiset(Declared(b))
    decreases |a|
  {
    if a != [] {
      var n := |a| - 1;
      var x := a[n];
      assert a == a[..n] + [x];
      assert x in multiset(b);
      var k :| 0 <= k < |b| && b[k] == x;
      var b' := b[..k] + b[k + 1..];
      assert multiset(a[..n]) == multiset(a) - multiset{x};
      RemoveOne(b, k);
      DeclaredPermutation(a[..n], b');
      DeclaredAppend(a[..n], [x]);
      DeclaredSplice(b, k);
    }
  }

  /** Taking one type out of a sequence takes it out of its multiset. */
  lemma RemoveOne(b: seq<KotlinType>, k: nat)
    requires k < |b|
    ensures multiset(b[..k] + b[k + 1..]) == multiset(b) - multiset{b[k]}
  {
    assert b == b[..k] + [b[k]] + b[k + 1..];
  }

  /** The classes declared by a sequence are those of the rest plus those of any one of its types. */
  lemma DeclaredSplice(b: seq<KotlinType>, k: nat)
    requires k < |b|
    ensures multiset(Declared(b)) == multiset(Declared(b[..k] + b[k + 1..])) + multiset(Declared([b[k]]))
  {
    var p, x, q := b[..k], [b[k]], b[k + 1..];
    assert b[..k + 1] == p + x;
    assert b == p + x + q;
    DeclaredThree(p, x, q);
    DeclaredAppend(p, q);
    SpliceMultiset(Declared(p), Declared(x), Declared(q));
  }

  /** Mapping three consecutive parts maps each of them. */
  lemma DeclaredThree(p: seq<KotlinType>, x: seq<KotlinType>, q: seq<KotlinType>)
    ensures Declared(p + x + q) == Declared(p) + Declared(x) + Declared(q)
  {
    DeclaredAppend(p + x, q);
    DeclaredAppend(p, x);
  }

  /** Moving a middle part of a sequence to its end does not change its multiset. */
  lemma SpliceMultiset<T>(p: seq<T>, x: seq<T>, q: seq<T>)
    ensures multiset(p + x + q) == multiset(p + q) + multiset(x)
  {
    assert multiset(p + x + q) == multiset(p) + multiset(x) + multiset(q);
  }

  /** Only the order of the types matters to `Declared`'s members: the same multiset declares the same classes. */
  lemma DeclaredSameMembers(a: seq<KotlinType>, b: seq<KotlinType>)
    requires multiset(a) == multiset(b)
    ensures forall c :: c in Declared(a) <==> c in Declared(b)
  {
    forall t
      ensures t in a <==> t in b
    {
      assert t in a <==> t in multiset(a);
      assert t in b <==> t in multiset(b);
    }
  }

  /** `filterNot { isAnyOrNullableAny(it.defaultType) }`, in order. */
  function NotAny(classes: seq<ClassDescriptor>): (r: seq<ClassDescriptor>)
    ensures |r| <= |classes|
    ensures forall c :: c in r <==> c in classes && !c.isAny
    ensures |classes| == 1 ==> r == if classes[0].isAny then [] else classes
    decreases |classes|
  {
    if classes == [] then []
    else
      var init := NotAny(classes[..|classes| - 1]);
      var last := classes[|classes| - 1];
      assert classes == classes[..|classes| - 1] + [last];
      if last.isAny then init else init + [last]
  }

  /** Each class other than `Any` is kept as often as it occurs. */
  lemma {:induction false} NotAnyCount(classes: seq<ClassDescriptor>)
    ensures forall c :: multiset(NotAny(classes))[c] == if c.isAny then 0 else multiset(classes)[c]
    decreases |classes|
  {
    if classes != [] {
      assert classes == classes[..|classes| - 1] + [classes[|classes| - 1]];
      NotAnyCount(classes[..|classes| - 1]);
    }
  }

  /** Filtering a concatenation filters each part: the classes keep their order. */
  lemma {:induction false} NotAnyAppend(a: seq<ClassDescriptor>, b: seq<ClassDescriptor>)
    ensures NotAny(a + b) == NotAny(a) + NotAny(b)
    decreases |b|
  {
    if b == [] {
      assert a + b == a;
    } else {
      assert (a + b)[..|a + b| - 1] == a + b[..|b| - 1];
      NotAnyAppend(a, b[..|b| - 1]);
    }
  }

  /** One signature per class, in order. */
  function Signatures(f: FunctionDescriptor, classes: seq<ClassDescriptor>): (r: seq<FunctionDescriptor>)
    ensures |r| == |classes| && forall i :: 0 <= i < |r| ==> r[i] == SignatureFor(f, classes[i])
  {
    seq(|classes|, i requires 0 <= i < |classes| => SignatureFor(f, classes[i]))
  }

  /**
   * The services the quick fix asks of the IDE: the supertypes of a class, the type
   * checker, the two descriptor renderers, the function-body template (given the
   * function's name, its return-type text and the class's importable name), and the
   * source class a descriptor is declared by.
   */
  datatype Host = Host(
    supertypes: ClassDescriptor -> seq<KotlinType>,
    isSubtype: (KotlinType, KotlinType) -> bool,
    renderSource: FunctionDescriptor -> string,
    renderPreview: FunctionDescriptor -> string,
    bodyTemplate: (string, string, Option<string>) -> string,
    sourceClass: ClassDescriptor -> Option<KtClass>)

  /** A class declared in source. */
  datatype KtClass = KtClass(name: string)

  /** `getSuperClasses`: the classes of the supertypes, subtypes first. */
  method GetSuperClasses(cls: ClassDescriptor, host: Host) returns (r: seq<ClassDescriptor>)
    ensures r == Declared(Passes(host.supertypes(cls), |host.supertypes(cls)|, host.isSubtype))
    ensures forall c :: c in r <==> exists t :: t in host.supertypes(cls) && t.declaration == Some(c)
  {
    var supertypes := SortSubtypesFirst(host.supertypes(cls), host.isSubtype);
    DeclaredSameMembers(supertypes, host.supertypes(cls));
    r := Declared(supertypes);
  }

  /** What `generateFunctionsToAdd` yields for a resolved function, or nothing. */
  function FunctionsToAdd(f: Option<FunctionDescriptor>, host: Host): (r: seq<FunctionDescriptor>)
    ensures f.None? || f.value.container.None? ==> r == []
    ensures forall g :: g in r ==> g.container.Some? && g.name == f.value.name
  {
    if f.None? || f.value.container.None? then []
    else
      var supertypes := host.supertypes(f.value.container.value);
      Signatures(f.value, NotAny(Declared(Passes(supertypes, |supertypes|, host.isSubtype))))
  }

  /**
   * `generateFunctionsToAdd`: nothing when the function does not resolve or is not in a
   * class, otherwise one signature per supertype class other than `Any`, subtypes first.
   */
  method GenerateFunctionsToAdd(f: Option<FunctionDescriptor>, host: Host) returns (r: seq<FunctionDescriptor>)
    ensures r == FunctionsToAdd(f, host)
  {
    if f.None? {
      return [];
    }
    if f.value.container.None? {
      return [];
    }
    var classes := GetSuperClasses(f.value.container.value, host);
    r := Signatures(f.value, NotAny(classes));
  }

  /**
   * The candidates are one per supertype class other than `Any`: each is the function
   * moved into such a class, every such class gets one, and there are as many as the
   * supertypes stand for classes other than `Any`.
   */
  lemma FunctionsToAddTargets(f: FunctionDescriptor, host: Host)
    requires f.container.Some?
    ensures var r := FunctionsToAdd(Some(f), host);
      && (forall g :: g in r ==>
            && g.container.Some? && !g.container.value.isAny && g == SignatureFor(f, g.container.value)
            && exists t :: t in host.supertypes(f.container.value) && t.declaration == g.container)
      && (forall c: ClassDescriptor :: (!c.isAny && exists t :: t in host.supertypes(f.container.value) && t.declaration == Some(c))
           ==> SignatureFor(f, c) in r)
      && |r| == |NotAny(Declared(host.supertypes(f.container.value)))|
  {
    var supertypes := host.supertypes(f.container.value);
    var sorted := Passes(supertypes, |supertypes|, host.isSubtype);
    var classes := NotAny(Declared(sorted));
    PassesPermutation(supertypes, |supertypes|, host.isSubtype);
    DeclaredSameMembers(sorted, supertypes);
    SignaturesMembers(f, classes);
    FunctionsToAddCount(f, host);
  }

  /** The signatures for some classes are exactly the function moved into each of them. */
  lemma SignaturesMembers(f: FunctionDescriptor, classes: seq<ClassDescriptor>)
    ensures forall g :: g in Signatures(f, classes) ==>
      g.container.Some? && g.container.value in classes && g == SignatureFor(f, g.container.value)
    ensures forall c :: c in classes ==> SignatureFor(f, c) in Signatures(f, classes)
  {
    var r := Signatures(f, classes);
    forall g | g in r
      ensures g.container.Some? && g.container.value in classes && g == SignatureFor(f, g.container.value)
    {
      var i :| 0 <= i < |r| && r[i] == g;
    }
    forall c | c in classes
      ensures SignatureFor(f, c) in r
    {
      var i :| 0 <= i < |classes| && classes[i] == c;
      assert r[i] == SignatureFor(f, c);
    }
  }

  /** Sorting the supertypes does not change how many candidates there are. */
  lemma FunctionsToAddCount(f: FunctionDescriptor, host: Host)
    requires f.container.Some?
    ensures |FunctionsToAdd(Some(f), host)| == |NotAny(Declared(host.supertypes(f.container.value)))|
  {
    var supertypes := host.supertypes(f.container.value);
    var sorted := Passes(supertypes, |supertypes|, host.isSubtype);
    assert FunctionsToAdd(Some(f), host) == Signatures(f, NotAny(Declared(sorted)));
    PassesPermutation(supertypes, |supertypes|, host.isSubtype);
    DeclaredPermutation(sorted, supertypes);
    NotAnyPermutation(Declared(sorted), Declared(supertypes));
  }

  /** Classes that are a rearrangement of each other keep as many classes other than `Any`. */
  lemma NotAnyPermutation(a: seq<ClassDescriptor>, b: seq<ClassDescriptor>)
    requires multiset(a) == multiset(b)
    ensures |NotAny(a)| == |NotAny(b)|
  {
    var x, y := NotAny(a), NotAny(b);
    NotAnyCount(a);
    NotAnyCount(b);
    assert multiset(x) == multiset(y);
    assert |x| == |multiset(x)| == |multiset(y)| == |y|;
  }

  // ---------------------------------------------------------------------------------
  // createFunctionData: the source text of a candidate
  // ---------------------------------------------------------------------------------

  /** The return type as the body template is given it: `Unit` when unknown. */
  function TemplateTypeText(t: ReturnType): string
    requires !t.UnitType?
  {
    if t.Unknown? then "Unit" else t.text
  }

  /**
   * The body appended to the rendered signature: none in an interface or for an abstract
   * function, `{}` for a `Unit` function, otherwise the template's text between braces.
   */
  function BodyText(kind: ClassKind, modality: Modality, name: string, ret: ReturnType, classFqName: Option<string>,
                    template: (string, string, Option<string>) -> string): (b: string)
    ensures b == "" <==> kind == Interface || modality == Abstract
    ensures b != "" ==> b[0] == '{' && b[|b| - 1] == '}'
    ensures ret.UnitType? && b != "" ==> b == "{}"
    ensures !ret.UnitType? && b != "" ==> b == "{\n" + template(name, TemplateTypeText(ret), classFqName) + "\n}"
  {
    if kind != Interface && modality != Abstract then
      if !ret.UnitType? then "{\n" + template(name, TemplateTypeText(ret), classFqName) + "\n}" else "{}"
    else ""
  }

  /** An unknown return type gets the template body a function returning `Unit` by name would, never `{}`. */
  lemma UnknownReturnUsesUnitTemplate(kind: ClassKind, modality: Modality, name: string, classFqName: Option<string>,
                                      template: (string, string, Option<string>) -> string)
    ensures BodyText(kind, modality, name, Unknown, classFqName, template)
         == BodyText(kind, modality, name, Rendered("Unit"), classFqName, template)
    ensures kind != Interface && modality != Abstract ==> BodyText(kind, modality, name, Unknown, classFqName, template) != "{}"
  {
    var b := BodyText(kind, modality, name, Unknown, classFqName, template);
    if b != "" {
      assert |b| >= 4;
    }
  }

  /**
   * A candidate generated for a class has no body exactly when that class is an
   * interface, sealed or abstract: the modality rule and the body rule together.
   */
  lemma GeneratedBodyEmpty(f: FunctionDescriptor, target: ClassDescriptor, template: (string, string, Option<string>) -> string)
    ensures var g := SignatureFor(f, target);
      BodyText(target.kind, g.modality, g.name, g.returnType, target.importableFqName, template) == ""
      <==> target.kind == Interface || target.modality in {Sealed, Abstract}
  {
  }

  /** A candidate: the short signature shown to the user, the source text to insert, and the class to add it to. */
  datatype FunctionData = FunctionData(signaturePreview: string, sourceCode: string, targetClass: KtClass)

  /**
   * `createFunctionData`: nothing when the containing class has no source class,
   * otherwise the rendered signature with its body. The source casts the container to
   * a class descriptor unchecked, so callers pass functions that have one.
   */
  function CreateFunctionData(g: FunctionDescriptor, host: Host): (d: Option<FunctionData>)
    requires g.container.Some?
    ensures d.None? <==> host.sourceClass(g.container.value).None?
    ensures d.Some? ==> d.value.targetClass == host.sourceClass(g.container.value).value
    ensures d.Some? ==>
      d.value.sourceCode == host.renderSource(g)
        + BodyText(g.container.value.kind, g.modality, g.name, g.returnType, g.container.value.importableFqName, host.bodyTemplate)
    ensures d.Some? ==> d.value.signaturePreview == host.renderPreview(g)
  {
    var cls := g.container.value;
    var sourceCode := host.renderSource(g) + BodyText(cls.kind, g.modality, g.name, g.returnType, cls.importableFqName, host.bodyTemplate);
    match host.sourceClass(cls)
    case None => None
    case Some(target) => Some(FunctionData(host.renderPreview(g), sourceCode, target))
  }

  /** `mapNotNull { createFunctionData(it, project) }`, in order. */
  function AllFunctionData(gs: seq<FunctionDescriptor>, host: Host): (r: seq<FunctionData>)
    requires forall g :: g in gs ==> g.container.Some?
    ensures |r| <= |gs|
    ensures r == [] <==> forall g :: g in gs ==> host.sourceClass(g.container.value).None?
    ensures |gs| == 1 ==> r == match CreateFunctionData(gs[0], host) case None => [] case Some(d) => [d]
    decreases |gs|
  {
    if gs == [] then []
    else
      var last := gs[|gs| - 1];
      assert gs == gs[..|gs| - 1] + [last];
      var init := AllFunctionData(gs[..|gs| - 1], host);
      match CreateFunctionData(last, host)
      case None => init
      case Some(d) => init + [d]
  }

  /** `mapNotNull` distributes over concatenation: the data keep the order of their candidates. */
  lemma {:induction false} AllFunctionDataAppend(a: seq<FunctionDescriptor>, b: seq<FunctionDescriptor>, host: Host)
    requires forall g :: g in a ==> g.container.Some?
    requires forall g :: g in b ==> g.container.Some?
    ensures AllFunctionData(a + b, host) == AllFunctionData(a, host) + AllFunctionData(b, host)
    decreases |b|
  {
    if b == [] {
      assert a + b == a;
    } else {
      var n := |b| - 1;
      assert (a + b)[..|a + b| - 1] == a + b[..n];
      AllFunctionDataAppend(a, b[..n], host);
    }
  }

  /** A datum is in the result exactly when `createFunctionData` gives it for some candidate. */
  lemma {:induction false} AllFunctionDataMembers(gs: seq<FunctionDescriptor>, host: Host)
    requires forall g :: g in gs ==> g.container.Some?
    ensures forall d :: d in AllFunctionData(gs, host) <==> exists g :: g in gs && CreateFunctionData(g, host) == Some(d)
    decreases |gs|
  {
    if gs != [] {
      var init, last := gs[..|gs| - 1], gs[|gs| - 1];
      assert gs == init + [last];
      AllFunctionDataMembers(init, host);
      forall d
        ensures d in AllFunctionData(gs, host) <==> exists g :: g in gs && CreateFunctionData(g, host) == Some(d)
      {
        if exists g :: g in gs && CreateFunctionData(g, host) == Some(d) {
          var g :| g in gs && CreateFunctionData(g, host) == Some(d);
          if g != last {
            assert g in init;
          }
        }
      }
    }
  }

  // ---------------------------------------------------------------------------------
  // The fix itself
  // ---------------------------------------------------------------------------------

  /** A non-empty list of candidates: the fix's constructor asserts it. */
  type Candidates = s: seq<FunctionData> | |s| > 0 witness [FunctionData("", "", KtClass(""))]

  /** The quick fix, built on the element's function with its candidates. */
  datatype Fix = Fix(functions: Candidates)

  /** The element a diagnostic points at: a named function (resolved or not) or something else. */
  datatype Element = NamedFunction(descriptor: Option<FunctionDescriptor>) | OtherElement

  /**
   * `createAction`: no fix when the element is not a function, when there is no
   * candidate, or when no candidate has a source class; otherwise a fix with every
   * candidate that has one, in order.
   */
  method CreateAction(element: Element, host: Host) returns (r: Option<Fix>)
    ensures element.OtherElement? ==> r.None?
    ensures element.NamedFunction? ==> var gs := FunctionsToAdd(element.descriptor, host);
      && (forall g :: g in gs ==> g.container.Some?)
      && (r.None? <==> forall g :: g in gs ==> host.sourceClass(g.container.value).None?)
      && (r.Some? ==> r.value.functions == AllFunctionData(gs, host))
  {
    if element.OtherElement? {
      return None;
    }
    var descriptors := GenerateFunctionsToAdd(element.descriptor, host);
    assert forall g :: g in descriptors ==> g.container.Some?;
    if |descriptors| == 0 {
      return None;
    }
    var functionData := AllFunctionData(descriptors, host);
    if |functionData| == 0 {
      return None;
    }
    return Some(Fix(functionData));
  }

  /** The action texts: the per-candidate name, or the generic "add function to supertype". */
  datatype ActionText = AddTo(signature: string, className: string) | AddFunctionToSupertype

  /** `actionName`: the candidate's short signature and its class's name. */
  function ActionName(d: FunctionData): (t: ActionText)
    ensures t.AddTo? && t.signature == d.signaturePreview && t.className == d.targetClass.name
  {
    AddTo(d.signaturePreview, d.targetClass.name)
  }

  /** `getText`: the only candidate's name, or the generic text for several. */
  function GetText(fix: Fix): (t: ActionText)
    ensures t.AddTo? <==> |fix.functions| == 1
    ensures t.AddTo? ==> t == ActionName(fix.functions[0])
  {
    if |fix.functions| == 1 then ActionName(fix.functions[0]) else AddFunctionToSupertype
  }

  /** The editor an invocation comes from, and whether its component is showing. */
  datatype Editor = Editor(showing: bool)

  /** What `invoke` does: add a candidate at once, or show the popup of all candidates. */
  datatype Invocation = AddFunction(data: FunctionData) | ShowPopup(choices: seq<FunctionData>)

  /**
   * `invoke`: the first candidate is added at once when it is the only one, when there
   * is no editor, or when the editor is not showing; otherwise the popup lists all.
   */
  function Invoke(fix: Fix, editor: Option<Editor>): (r: Invocation)
    ensures r.AddFunction? <==> |fix.functions| == 1 || editor.None? || !editor.value.showing
    ensures r.AddFunction? ==> r.data == fix.functions[0]
    ensures r.ShowPopup? ==> r.choices == fix.functions && |r.choices| >= 2
  {
    if |fix.functions| == 1 || editor.None? || !editor.value.showing then AddFunction(fix.functions[0])
    else ShowPopup(fix.functions)
  }

  /** The popup's `onChosen`: the chosen candidate is added only on a final choice. */
  function OnChosen(selected: FunctionData, finalChoice: bool): (added: Option<FunctionData>)
    ensures added.Some? <==> finalChoice
    ensures added.Some? ==> added.value == selected
  {
    if finalChoice then Some(selected) else None
  }

  /** Whichever way the fix is invoked, what gets added is one of its candidates. */
  lemma InvokeAddsACandidate(fix: Fix, editor: Option<Editor>, choice: nat, finalChoice: bool)
    ensures var r := Invoke(fix, editor);
      && (r.AddFunction? ==> r.data in fix.functions)
      && (r.ShowPopup? && choice < |r.choices| ==> var added := OnChosen(r.choices[choice], finalChoice);
            added.Some? ==> added.value in fix.functions)
  {
  }
}
