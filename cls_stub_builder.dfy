/**
 * How the Kotlin class-file stub builder decides what stub, if any, a compiled class
 * file gets, and how its annotation loader collects annotation class ids. Reading the
 * binary class, the protobuf metadata and building the stubs themselves are done by
 * the compiler's libraries; only the decisions are modelled.
 */
module ClsStubBuilder {
  import opened Wrappers
  import opened Text
  import Seqs

  /** Archive separator, `META-INF` and `versions`: the path of a multi-release jar entry. */
  const VersionedPathMarker: string := "!/META-INF/versions/"

  /** `isVersioned`: the file's path holds the versioned-entry marker somewhere. */
  function IsVersioned(path: string): (b: bool)
    ensures b <==> exists k :: OccursAt(path, VersionedPathMarker, k)
  {
    Contains(path, VersionedPathMarker)
  }

  /** Any entry under a multi-release jar's `versions` directory is versioned, whatever surrounds the marker. */
  lemma VersionedEntry(jar: string, entry: string)
    ensures IsVersioned(jar + VersionedPathMarker + entry)
  {
    var p := jar + VersionedPathMarker + entry;
    assert p[|jar|..|jar| + |VersionedPathMarker|] == VersionedPathMarker;
    assert OccursAt(p, VersionedPathMarker, |jar|);
  }

  /** A path that never mentions `META-INF` is not versioned. */
  lemma PlainPathNotVersioned(path: string)
    requires forall k :: !OccursAt(path, "META-INF", k)
    ensures !IsVersioned(path)
  {
    forall k: int
      ensures !OccursAt(path, VersionedPathMarker, k)
    {
      assert !OccursAt(path, "META-INF", k + 2);
      if 0 <= k && k + |VersionedPathMarker| <= |path| {
        Seqs.SliceOfSlice(path, k, k + |VersionedPathMarker|, 2, 10);
        assert VersionedPathMarker[2..10] == "META-INF";
      }
    }
  }

  /** `KotlinClassHeader.Kind`. */
  datatype HeaderKind = Unknown | Class | FileFacade | SyntheticClass | MultifileClass | MultifileClassPart

  /** A class id: package, class name relative to it, and whether the class is local. */
  datatype ClassId = ClassId(packageFqName: string, relativeClassName: string, isLocal: bool)

  /** `ClassId.asSingleFqName`: the package and the relative name joined by a dot. */
  function AsSingleFqName(id: ClassId): string
  {
    if id.packageFqName == "" then id.relativeClassName else id.packageFqName + "." + id.relativeClassName
  }

  /**
   * The Kotlin class header of a compiled file: its kind, whether its metadata version is
   * compatible, the serialized data and string table when present, the package name it
   * declares, whether it is a script.
   */
  datatype Header = Header(
    kind: HeaderKind, compatible: bool, data: Option<seq<string>>, strings: Option<seq<string>>,
    packageName: Option<string>, isScript: bool)

  /** A binary class found for the file: its header and class id. */
  datatype BinaryClass = BinaryClass(header: Header, classId: ClassId)

  /** The stubs the builder creates. */
  datatype Stub =
    | IncompatibleAbiStub
    | MultifileClassStub(fqName: string)
    | TopLevelClassStub(classId: ClassId, isScript: bool)
    | FileFacadeStub(fqName: string)

  /** What building a file's stub gives: a stub, none, or an exception. */
  datatype Outcome = Built(stub: Stub) | NoStub | Throws

  /**
   * The fully qualified name a file facade gets: the header's package name with the
   * class's relative name when the header has one, the class's own otherwise.
   */
  function FacadeName(c: BinaryClass): (fqName: string)
    ensures var pkg := if c.header.packageName.Some? then c.header.packageName.value else c.classId.packageFqName;
      fqName == if pkg == "" then c.classId.relativeClassName else pkg + "." + c.classId.relativeClassName
    ensures |fqName| >= |c.classId.relativeClassName|
    ensures fqName[|fqName| - |c.classId.relativeClassName|..] == c.classId.relativeClassName
  {
    match c.header.packageName
    case Some(p) => AsSingleFqName(ClassId(p, c.classId.relativeClassName, c.classId.isLocal))
    case None => AsSingleFqName(c.classId)
  }

  /**
   * `doBuildFileStub`. `kotlinClass` is the binary class the cache finds (None: the source
   * raises an error). `localVisibility` is whether the class proto read from data and
   * strings has LOCAL visibility.
   */
  function DoBuildFileStub(kotlinClass: Option<BinaryClass>, localVisibility: (seq<string>, seq<string>) -> bool): (r: Outcome)
    ensures kotlinClass.None? ==> r == Throws
    ensures kotlinClass.Some? && !kotlinClass.value.header.compatible ==> r == Built(IncompatibleAbiStub)
  {
    match kotlinClass
    case None => Throws
    case Some(c) =>
      var header := c.header;
      if !header.compatible then Built(IncompatibleAbiStub)
      else if header.kind == MultifileClass then Built(MultifileClassStub(AsSingleFqName(c.classId)))
      else if header.data.None? then NoStub
      else if header.strings.None? then NoStub
      else match header.kind
        case Class =>
          if c.classId.isLocal then NoStub
          else if localVisibility(header.data.value, header.strings.value) then NoStub
          else Built(TopLevelClassStub(c.classId, header.isScript))
        case FileFacade => Built(FileFacadeStub(FacadeName(c)))
        case _ => Throws
  }

  /**
   * `buildFileStub`: internal compiled files and versioned files get no stub; otherwise
   * the header decides.
   */
  function BuildFileStub(path: string, internalCompiled: bool, kotlinClass: Option<BinaryClass>,
                         localVisibility: (seq<string>, seq<string>) -> bool): (r: Outcome)
    ensures internalCompiled || IsVersioned(path) ==> r == NoStub
    ensures !internalCompiled && !IsVersioned(path) ==> r == DoBuildFileStub(kotlinClass, localVisibility)
  {
    if internalCompiled then NoStub
    else if IsVersioned(path) then NoStub
    else DoBuildFileStub(kotlinClass, localVisibility)
  }

  /**
   * The checks on the file come before the header: an internal or versioned file gets
   * no stub whatever its binary class, even one the cache cannot find.
   */
  lemma FileChecksFirst(path: string, internalCompiled: bool, a: Option<BinaryClass>, b: Option<BinaryClass>,
                        localVisibility: (seq<string>, seq<string>) -> bool)
    requires internalCompiled || IsVersioned(path)
    ensures BuildFileStub(path, internalCompiled, a, localVisibility) == BuildFileStub(path, internalCompiled, b, localVisibility) == NoStub
  {
  }

  /** An incompatible metadata version gives the incompatible-ABI stub, whatever the kind, data or strings. */
  lemma IncompatibleWins(c: BinaryClass, kind: HeaderKind, data: Option<seq<string>>, strings: Option<seq<string>>,
                         localVisibility: (seq<string>, seq<string>) -> bool)
    requires !c.header.compatible
    ensures var h := c.header.(kind := kind, data := data, strings := strings);
      DoBuildFileStub(Some(c.(header := h)), localVisibility) == Built(IncompatibleAbiStub)
  {
  }

  /**
   * Which outcome a compatible binary class gets: a multifile class always gets its stub,
   * even with data or strings missing; otherwise missing data or strings give no stub, a
   * local class or one whose proto says LOCAL gives none, any other class gets its
   * top-level stub, a facade gets its stub under `FacadeName`, and any other kind throws.
   */
  lemma CompatibleOutcomes(c: BinaryClass, localVisibility: (seq<string>, seq<string>) -> bool)
    requires c.header.compatible
    ensures var r := DoBuildFileStub(Some(c), localVisibility);
      && (c.header.kind == MultifileClass ==> r == Built(MultifileClassStub(AsSingleFqName(c.classId))))
      && (c.header.kind != MultifileClass && (c.header.data.None? || c.header.strings.None?) ==> r == NoStub)
      && (c.header.kind == Class && c.classId.isLocal ==> r == NoStub)
      && (r.Built? && c.header.kind == Class ==> r.stub == TopLevelClassStub(c.classId, c.header.isScript))
    ensures var r, h := DoBuildFileStub(Some(c), localVisibility), c.header;
      && ((h.kind == Class && h.data.Some? && h.strings.Some? && !c.classId.isLocal && !localVisibility(h.data.value, h.strings.value)) ==>
            r == Built(TopLevelClassStub(c.classId, h.isScript)))
      && (h.kind == Class && h.data.Some? && h.strings.Some? && localVisibility(h.data.value, h.strings.value) ==> r == NoStub)
      && (h.kind == FileFacade && h.data.Some? && h.strings.Some? ==> r == Built(FileFacadeStub(FacadeName(c))))
      && (r == Throws <==> c.header.kind !in {Class, FileFacade, MultifileClass} && c.header.data.Some? && c.header.strings.Some?)
  {
  }

  /** A top-level class stub is built only for a non-local class, from a compatible header with data and strings. */
  lemma ClassStubRequirements(path: string, internalCompiled: bool, kotlinClass: Option<BinaryClass>,
                              localVisibility: (seq<string>, seq<string>) -> bool)
    requires BuildFileStub(path, internalCompiled, kotlinClass, localVisibility).Built?
    requires BuildFileStub(path, internalCompiled, kotlinClass, localVisibility).stub.TopLevelClassStub?
    ensures !internalCompiled && !IsVersioned(path) && kotlinClass.Some?
    ensures var h := kotlinClass.value.header;
      h.compatible && h.kind == Class && h.data.Some? && h.strings.Some? && !kotlinClass.value.classId.isLocal
    ensures !localVisibility(kotlinClass.value.header.data.value, kotlinClass.value.header.strings.value)
  {
  }

  // ---------------------------------------------------------------------------------
  // AnnotationLoaderForClassFileStubBuilder
  // ---------------------------------------------------------------------------------

  /** `java.lang.annotation.Repeatable`. */
  const JavaLangAnnotationRepeatable: ClassId := ClassId("java.lang.annotation", "Repeatable", false)

  /** A binary class handed to the loader: one read from a virtual file, or another kind. */
  datatype KotlinJvmBinaryClass = VirtualFileKotlinClass(file: string) | OtherBinaryClass

  /** The class literal value of an annotation argument. */
  datatype ClassLiteralValue = ClassLiteralValue(classId: ClassId, arrayNestedness: nat)

  /** The list the loader appends annotation class ids to. */
  class ResultList {
    var items: seq<ClassId>

    constructor ()
      ensures items == []
    {
      items := [];
    }
  }

  /**
   * The argument visitor returned for a `Repeatable` annotation: it records the class
   * literal arguments and, at the end, appends the annotation unless it is a repeatable
   * annotation with an implicit container.
   */
  class RepeatableVisitor {
    const annotationClassId: ClassId
    const result: ResultList
    var arguments: map<string, ClassLiteralValue>

    constructor (annotationClassId: ClassId, result: ResultList)
      ensures this.annotationClassId == annotationClassId && this.result == result && arguments == map[]
    {
      this.annotationClassId := annotationClassId;
      this.result := result;
      arguments := map[];
    }

    /** `visitClassLiteral`: a named argument is recorded (a later one replaces an earlier one of the same name); an unnamed one is ignored. */
    method VisitClassLiteral(name: Option<string>, value: ClassLiteralValue)
      modifies this
      ensures name.Some? ==> arguments == old(arguments)[name.value := value]
      ensures name.None? ==> arguments == old(arguments)
    {
      if name.Some? {
        arguments := arguments[name.value := value];
      }
    }

    /**
     * `visitEnd`: appends the annotation to the result unless `isRepeatableWithImplicitContainer`
     * (a service of the loader's base class, passed in) holds for it and its arguments.
     */
    method VisitEnd(isRepeatableWithImplicitContainer: (ClassId, map<string, ClassLiteralValue>) -> bool)
      modifies result
      ensures !isRepeatableWithImplicitContainer(annotationClassId, arguments) ==>
        result.items == old(result.items) + [annotationClassId]
      ensures isRepeatableWithImplicitContainer(annotationClassId, arguments) ==> result.items == old(result.items)
    {
      if !isRepeatableWithImplicitContainer(annotationClassId, arguments) {
        result.items := result.items + [annotationClassId];
      }
    }
  }

  /** The loader of one class file: the file and its content, which it hands back for that file only. */
  class AnnotationLoader {
    const cachedFile: string
    const cachedFileContent: seq<bv8>

    constructor (cachedFile: string, cachedFileContent: seq<bv8>)
      ensures this.cachedFile == cachedFile && this.cachedFileContent == cachedFileContent
    {
      this.cachedFile := cachedFile;
      this.cachedFileContent := cachedFileContent;
    }

    /** `getCachedFileContent`: the content when asked about the loader's own file, nothing otherwise. */
    function GetCachedFileContent(kotlinClass: KotlinJvmBinaryClass): (r: Option<seq<bv8>>)
      ensures r.Some? <==> kotlinClass == VirtualFileKotlinClass(cachedFile)
      ensures r.Some? ==> r.value == cachedFileContent
    {
      if kotlinClass.VirtualFileKotlinClass? && kotlinClass.file == cachedFile then Some(cachedFileContent) else None
    }

    /**
     * `loadAnnotation`: any annotation but `Repeatable` is appended at once and needs no
     * visitor; for `Repeatable` the result is left alone and a fresh visitor decides at
     * its end.
     */
    method LoadAnnotation(annotationClassId: ClassId, result: ResultList) returns (v: Option<RepeatableVisitor>)
      modifies result
      ensures annotationClassId != JavaLangAnnotationRepeatable ==>
        v.None? && result.items == old(result.items) + [annotationClassId]
      ensures annotationClassId == JavaLangAnnotationRepeatable ==>
        v.Some? && fresh(v.value) && result.items == old(result.items)
      ensures v.Some? ==> v.value.annotationClassId == annotationClassId && v.value.result == result && v.value.arguments == map[]
    {
      if annotationClassId != JavaLangAnnotationRepeatable {
        result.items := result.items + [annotationClassId];
        return None;
      }
      var visitor := new RepeatableVisitor(annotationClassId, result);
      return Some(visitor);
    }
  }
}
