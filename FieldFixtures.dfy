/**
 * The fixture types of the reflection tests for fields (FieldsTest): type()
 * defines an anonymous class per type declaration, once, and caches it in a
 * static map keyed by the declaration; field() defines a class whose body
 * declares a field and looks that field up.
 *
 * ClassLoader::defineType() is outside the model: a defined type is a
 * handle recording the name, definition and declaration it was defined
 * with, and the cache logs every call made to defineType().
 */
module FieldFixtures {

  /** FieldsTest's fully qualified class name (self::class). */
  const TestClass: string := "net\\xp_framework\\unittest\\reflection\\FieldsTest"

  const ObjectClass: string := "lang\\Object"
  const CompareToTrait: string := "net\\xp_framework\\unittest\\reflection\\CompareTo"
  const ValueInterface: string := "lang\\Value"

  /** The definition array passed to defineType(). */
  datatype Definition = Definition(
    modifiers: string,
    kind: string,
    parents: seq<string>,
    interfaces: seq<string>,
    uses: seq<string>,
    imports: seq<string>)

  /** The definition of a fixture type with the given modifiers. */
  function FixtureDefinition(modifiers: string): (d: Definition)
    ensures d.modifiers == modifiers && d.kind == "class" && d.parents == [ObjectClass]
  {
    Definition(modifiers, "class", [ObjectClass], [], [CompareToTrait], [ValueInterface])
  }

  /** A type defined by defineType(). */
  datatype TypeHandle = TypeHandle(name: string, definition: Definition, decl: string)

  /** A field looked up by name on a type. */
  datatype FieldHandle = FieldHandle(owner: TypeHandle, name: string)

  // ---------------------------------------------------------------------
  // Decimal numbers, as PHP writes an integer into a string

  function Digit(d: nat): char
    requires d < 10
  {
    "0123456789"[d]
  }

  function DigitValue(c: char): nat
  {
    if '0' <= c <= '9' then (c as int - '0' as int) as nat else 0
  }

  /** The decimal form of n, without leading zeros. */
  function NatToString(n: nat): (s: string)
    ensures |s| >= 1
    decreases n
  {
    if n < 10 then [Digit(n)] else NatToString(n / 10) + [Digit(n % 10)]
  }

  /** The number a string of decimal digits stands for. */
  function ParseNat(s: string): nat
    decreases |s|
  {
    if s == [] then 0 else ParseNat(s[..|s| - 1]) * 10 + DigitValue(s[|s| - 1])
  }

  lemma DigitRoundTrip(d: nat)
    requires d < 10
    ensures DigitValue(Digit(d)) == d
  {
  }

  /** Reading back the decimal form of a number gives the number. */
  lemma {:induction false} ParseNatToString(n: nat)
    ensures ParseNat(NatToString(n)) == n
    decreases n
  {
    DigitRoundTrip(n % 10);
    if n >= 10 {
      ParseNatToString(n / 10);
      var s := NatToString(n);
      assert s[..|s| - 1] == NatToString(n / 10);
    } else {
      assert NatToString(n)[..0] == [];
    }
  }

  /** Different numbers have different decimal forms. */
  lemma NatToStringInjective(a: nat, b: nat)
    ensures NatToString(a) == NatToString(b) <==> a == b
  {
    ParseNatToString(a);
    ParseNatToString(b);
  }

  /** The name the n-th fixture type is defined under: the test class's name and the number. */
  function GeneratedName(n: nat): (name: string)
    ensures |name| > |TestClass| && name[..|TestClass|] == TestClass
    ensures ParseNat(name[|TestClass|..]) == n
  {
    var name := TestClass + NatToString(n);
    assert name[|TestClass|..] == NatToString(n);
    ParseNatToString(n);
    name
  }

  /** Fixture types defined at different cache sizes get different names. */
  lemma GeneratedNamesDistinct(a: nat, b: nat)
    ensures GeneratedName(a) == GeneratedName(b) <==> a == b
  {
    if a != b {
      assert ParseNat(GeneratedName(a)[|TestClass|..]) != ParseNat(GeneratedName(b)[|TestClass|..]);
    }
  }

  /** The cache size a generated name was made for. */
  function NameIndex(name: string): nat
  {
    if |name| >= |TestClass| then ParseNat(name[|TestClass|..]) else 0
  }

  /** Every type in the cache is stored under its own declaration. */
  ghost predicate KeyedByDecl(m: map<string, TypeHandle>)
  {
    forall d :: d in m ==> m[d].decl == d
  }

  /** Every type in the cache was defined under the generated name for a cache size below the current one. */
  ghost predicate NamedBelow(m: map<string, TypeHandle>)
  {
    forall d :: d in m ==> NameIndex(m[d].name) < |m| && m[d].name == GeneratedName(NameIndex(m[d].name))
  }

  /** No two types in the cache share a name. */
  ghost predicate DistinctNames(m: map<string, TypeHandle>)
  {
    forall d1, d2 :: d1 in m && d2 in m && d1 != d2 ==> m[d1].name != m[d2].name
  }

  ghost predicate ValidCache(m: map<string, TypeHandle>)
  {
    KeyedByDecl(m) && NamedBelow(m) && DistinctNames(m)
  }

  /** A name generated for the current size is new to a valid cache. */
  lemma FreshName(m: map<string, TypeHandle>, t: TypeHandle)
    requires NamedBelow(m) && t.name == GeneratedName(|m|)
    ensures forall d :: d in m ==> m[d].name != t.name
  {
    assert NameIndex(t.name) == |m|;
    forall d | d in m ensures m[d].name != t.name {
      assert NameIndex(m[d].name) < |m|;
    }
  }

  lemma {:induction false} InsertNamedBelow(m: map<string, TypeHandle>, decl: string, t: TypeHandle)
    requires NamedBelow(m) && decl !in m && t.name == GeneratedName(|m|)
    ensures NamedBelow(m[decl := t]) && |m[decl := t]| == |m| + 1
  {
    var m' := m[decl := t];
    assert |m'| == |m| + 1;
    assert NameIndex(t.name) == |m|;
    forall d | d in m' ensures NameIndex(m'[d].name) < |m'| && m'[d].name == GeneratedName(NameIndex(m'[d].name)) {
      if d != decl {
        assert m'[d] == m[d];
      }
    }
  }

  lemma {:induction false} InsertDistinct(m: map<string, TypeHandle>, decl: string, t: TypeHandle)
    requires DistinctNames(m) && decl !in m
    requires forall d :: d in m ==> m[d].name != t.name
    ensures DistinctNames(m[decl := t])
  {
    var m' := m[decl := t];
    forall d1, d2 | d1 in m' && d2 in m' && d1 != d2 ensures m'[d1].name != m'[d2].name {
      if d1 != decl && d2 != decl {
        assert m'[d1] == m[d1] && m'[d2] == m[d2];
      }
    }
  }

  /** Caching a new declaration under the name for the current size keeps the cache valid and grows it by one. */
  lemma CacheInsert(m: map<string, TypeHandle>, decl: string, t: TypeHandle)
    requires ValidCache(m) && decl !in m
    requires t.name == GeneratedName(|m|) && t.decl == decl
    ensures ValidCache(m[decl := t]) && |m[decl := t]| == |m| + 1
  {
    FreshName(m, t);
    InsertNamedBelow(m, decl, t);
    InsertDistinct(m, decl, t);
  }

  /** The static fixture cache of FieldsTest. */
  class FixtureCache {
    /** The defined types, by declaration. */
    var fixtures: map<string, TypeHandle>
    /** The calls made to defineType(), oldest first. */
    var defined: seq<TypeHandle>

    ghost predicate Valid()
      reads this
    {
      ValidCache(fixtures)
    }

    constructor ()
      ensures Valid() && fixtures == map[] && defined == []
    {
      fixtures := map[];
      defined := [];
    }

    /**
     * type(): the cached type for a declaration; on a miss, defines one
     * under the next generated name with a definition carrying the
     * modifiers, and caches it.  A null declaration is the key "".
     */
    method Type(decl: string, modifiers: string) returns (t: TypeHandle)
      requires Valid()
      modifies this
      ensures Valid()
      ensures decl in fixtures && t == fixtures[decl] && t.decl == decl
      ensures decl in old(fixtures) ==> t == old(fixtures)[decl] && fixtures == old(fixtures) && defined == old(defined)
      ensures decl !in old(fixtures) ==>
        && t == TypeHandle(GeneratedName(|old(fixtures)|), FixtureDefinition(modifiers), decl)
        && fixtures == old(fixtures)[decl := t]
        && |fixtures| == |old(fixtures)| + 1
        && defined == old(defined) + [t]
    {
      if decl !in fixtures {
        var handle := TypeHandle(GeneratedName(|fixtures|), FixtureDefinition(modifiers), decl);
        CacheInsert(fixtures, decl, handle);
        fixtures := fixtures[decl := handle];
        defined := defined + [handle];
      }
      t := fixtures[decl];
    }

    /** field(): the field named fixture of the type whose body is the declaration. */
    method Field(decl: string, modifiers: string) returns (f: FieldHandle)
      requires Valid()
      modifies this
      ensures Valid()
      ensures "{ " + decl + " }" in fixtures && f == FieldHandle(fixtures["{ " + decl + " }"], "fixture")
      ensures f.owner.decl == "{ " + decl + " }"
      ensures "{ " + decl + " }" in old(fixtures) ==>
        f.owner == old(fixtures)["{ " + decl + " }"] && fixtures == old(fixtures) && defined == old(defined)
      ensures "{ " + decl + " }" !in old(fixtures) ==>
        && f.owner == TypeHandle(GeneratedName(|old(fixtures)|), FixtureDefinition(modifiers), "{ " + decl + " }")
        && fixtures == old(fixtures)["{ " + decl + " }" := f.owner]
        && |fixtures| == |old(fixtures)| + 1
        && defined == old(defined) + [f.owner]
    {
      var t := Type("{ " + decl + " }", modifiers);
      f := FieldHandle(t, "fixture");
    }
  }

  /**
   * The cache is keyed by the declaration alone: asking again with other
   * modifiers gives the first type, and defineType() is called once.
   */
  method KeyedByDeclaration(decl: string) returns (first: TypeHandle, second: TypeHandle, calls: nat)
    ensures first == second
    ensures first.definition.modifiers == "public"
    ensures first.name == GeneratedName(0)
    ensures calls == 1
  {
    var cache := new FixtureCache();
    first := cache.Type(decl, "public");
    second := cache.Type(decl, "public static");
    calls := |cache.defined|;
  }

  /** Two different declarations get two different types with different names. */
  method DistinctDeclarations(a: string, b: string) returns (ta: TypeHandle, tb: TypeHandle)
    requires a != b
    ensures ta.name == GeneratedName(0) && tb.name == GeneratedName(1)
    ensures ta.name != tb.name
  {
    var cache := new FixtureCache();
    ta := cache.Type(a, "");
    tb := cache.Type(b, "");
    GeneratedNamesDistinct(0, 1);
  }
}
