/**
 * Equality and hashing of a Gradle Kotlin-script's root information. An info is an
 * object with three immutable parts: its build root's path prefix, its Kotlin DSL
 * script model and its optional script definition. Kotlin `Int` arithmetic wraps at
 * 32 bits; `Wrap` says so explicitly. `String.hashCode` is Java's polynomial hash over
 * the string's UTF-16 code units; the model's and the definition's own `hashCode` are
 * the host's and are passed in.
 */
module GradleScriptInfo {
  import opened Wrappers
  import opened Text

  const Two32: int := 0x1_0000_0000
  const Two31: int := 0x8000_0000

  /** A Kotlin `Int`. */
  type Int32 = x: int | -Two31 <= x < Two31

  /** Two's-complement truncation of an integer to a Kotlin `Int`. */
  function Wrap(x: int): (r: Int32)
    ensures (r - x) % Two32 == 0
  {
    (x + Two31) % Two32 - Two31
  }

  /** Truncation ignores whole multiples of 2^32. */
  lemma WrapShift(x: int, k: int)
    ensures Wrap(x + k * Two32) == Wrap(x)
  {
    assert (x + k * Two32 + Two31) % Two32 == (x + Two31) % Two32;
  }

  /** Truncating an intermediate result of `31 * h + y` does not change the final truncation. */
  lemma WrapStep(x: int, y: int)
    ensures Wrap(31 * Wrap(x) + y) == Wrap(31 * x + y)
  {
    var k := (Wrap(x) - x) / Two32;
    assert Wrap(x) == x + k * Two32;
    assert 31 * Wrap(x) + y == (31 * x + y) + (31 * k) * Two32;
    WrapShift(31 * x + y, 31 * k);
  }

  /** The unbounded polynomial `u[0]·31^(n-1) + … + u[n-1]` behind `String.hashCode`. */
  function Polynomial(u: seq<int>): int
    decreases |u|
  {
    if u == [] then 0 else 31 * Polynomial(u[..|u| - 1]) + u[|u| - 1]
  }

  /** The loop `h = 31 * h + c` of `String.hashCode` in `Int` arithmetic: the polynomial truncated once. */
  function HashUnits(u: seq<int>): (h: Int32)
    ensures h == Wrap(Polynomial(u))
    decreases |u|
  {
    if u == [] then 0
    else
      var init := u[..|u| - 1];
      WrapStep(Polynomial(init), u[|u| - 1]);
      Wrap(31 * HashUnits(init) + u[|u| - 1])
  }

  /** `String.hashCode`: the hash of the string's UTF-16 code units, a surrogate pair for a supplementary character. */
  function StringHash(s: string): (h: Int32)
    ensures h == Wrap(Polynomial(Units(s)))
    ensures Bmp(s) && |s| == 1 ==> h == s[0] as int
  {
    if Bmp(s) && |s| == 1 then
      BmpUnits(s);
      assert Units(s) == [s[0] as int];
      HashUnits(Units(s))
    else HashUnits(Units(s))
  }

  /** A supplementary character hashes as its two surrogates: `"😀".hashCode()` is 31·0xD83D + 0xDE00. */
  lemma SupplementaryHash()
    ensures StringHash("\U{1F600}") == 31 * 0xD83D + 0xDE00 == 1772899
  {
    var s := "\U{1F600}";
    assert s[..0] == [];
    assert Units(s) == [0xD83D, 0xDE00];
    assert Units(s)[..1] == [0xD83D];
  }

  /** The build root the script belongs to. */
  datatype Imported = Imported(pathPrefix: string)

  /** The model Gradle hands back for one script; a data class, compared field by field. */
  datatype KotlinDslScriptModel = KotlinDslScriptModel(
    file: string,
    classPath: seq<string>,
    sourcePath: seq<string>,
    imports: seq<string>)

  /** A script definition, known by its identity. */
  datatype ScriptDefinition = ScriptDefinition(id: nat)

  /** `hashCode` of the model and of a definition, as the host computes them. */
  datatype Hashes = Hashes(model: KotlinDslScriptModel -> Int32, definition: ScriptDefinition -> Int32)

  /** `Any?.hashCode()` of the definition: zero when there is none. */
  function DefinitionHash(hashes: Hashes, d: Option<ScriptDefinition>): (h: Int32)
    ensures d.None? ==> h == 0
    ensures d.Some? ==> h == hashes.definition(d.value)
  {
    match d
    case None => 0
    case Some(v) => hashes.definition(v)
  }

  /** A `GradleScriptInfo`: its parts never change after construction. */
  class ScriptInfo {
    const buildRoot: Imported
    const definition: Option<ScriptDefinition>
    const model: KotlinDslScriptModel

    constructor (buildRoot: Imported, definition: Option<ScriptDefinition>, model: KotlinDslScriptModel)
      ensures this.buildRoot == buildRoot && this.definition == definition && this.model == model
    {
      this.buildRoot := buildRoot;
      this.definition := definition;
      this.model := model;
    }

    /** The three parts `equals` compares agree. */
    predicate SameParts(other: ScriptInfo)
    {
      buildRoot.pathPrefix == other.buildRoot.pathPrefix && model == other.model && definition == other.definition
    }

    /**
     * `equals`: the same object is equal; null or an object of another class is not;
     * another info is equal exactly when its path prefix, model and definition are.
     * The class is final, so "same runtime class" is "is a `ScriptInfo`".
     */
    function Equals(other: object?): (b: bool)
      ensures other == this ==> b
      ensures other == null || !(other is ScriptInfo) ==> !b
      ensures other != null && other is ScriptInfo ==> (b <==> SameParts(other as ScriptInfo))
    {
      if this == other then true
      else if other == null || !(other is ScriptInfo) then false
      else
        var o := other as ScriptInfo;
        buildRoot.pathPrefix == o.buildRoot.pathPrefix && model == o.model && definition == o.definition
    }

    /** `hashCode`: `31 * (31 * h(pathPrefix) + h(model)) + h(definition)` in `Int` arithmetic. */
    function HashCode(hashes: Hashes): (h: Int32)
      ensures h == Wrap(961 * Polynomial(Units(buildRoot.pathPrefix)) + 31 * hashes.model(model) + DefinitionHash(hashes, definition))
    {
      var result := StringHash(buildRoot.pathPrefix);
      var result1 := Wrap(31 * result + hashes.model(model));
      var result2 := Wrap(31 * result1 + DefinitionHash(hashes, definition));
      WrapStep(Polynomial(Units(buildRoot.pathPrefix)), hashes.model(model));
      WrapStep(31 * Polynomial(Units(buildRoot.pathPrefix)) + hashes.model(model), DefinitionHash(hashes, definition));
      result2
    }
  }

  /** `equals` is symmetric. */
  lemma EqualsSymmetric(a: ScriptInfo, b: ScriptInfo)
    ensures a.Equals(b) <==> b.Equals(a)
  {
  }

  /** `equals` is transitive. */
  lemma EqualsTransitive(a: ScriptInfo, b: ScriptInfo, c: ScriptInfo)
    ensures a.Equals(b) && b.Equals(c) ==> a.Equals(c)
  {
  }

  /** Equal infos hash alike, whatever hash functions the model and the definition use. */
  lemma EqualsImpliesEqualHash(a: ScriptInfo, b: ScriptInfo, hashes: Hashes)
    ensures a.Equals(b) ==> a.HashCode(hashes) == b.HashCode(hashes)
  {
  }
}
